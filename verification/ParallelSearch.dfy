/** The default search of plfit_continuous (src/plfit.c), stratified sampling, when both of its scans run
    in parallel: what the schedules can make of it, and when they all agree with the sequential search. */
module ParallelSearch {
  import opened SortedSamples
  import opened XminScan
  import opened ContinuousSearch

  // ----- one scan -----

  ghost predicate Returns(path: seq<State>, numThreads: nat, fits: seq<Fit>, big: real, g: Fit) {
    && Run(path, fits) && path[0] == Init(numThreads, big)
    && Finished(path[|path| - 1], |fits|) && path[|path| - 1].global == g
  }

  /** Some number of threads and some schedule end the scan with record g. */
  ghost predicate CanReturn(fits: seq<Fit>, big: real, g: Fit) {
    exists path: seq<State>, numThreads: nat :: Returns(path, numThreads, fits, big, g)
  }

  /** A best probe that leads its chunk. */
  ghost predicate CanWin(fits: seq<Fit>, i: nat) {
    Minimal(fits, i) && Leader(fits, i)
  }

  /** A single thread gets through. */
  lemma OneThread(fits: seq<Fit>, big: real) returns (g: Fit)
    ensures CanReturn(fits, big, g)
  {
    hide Fold, Finished;
    var s0 := Init(1, big);
    assert Reaches(s0, s0, fits) by { assert Run([s0], fits) && [s0][0] == s0; }
    var s1, best := TakeUpTo(s0, s0, 0, Chunks(|fits|), fits);
    var s2 := Merge(s1, 0);
    assert Step(s1, s2, fits) by { assert CanMerge(s1, 0, |fits|); }
    ReachesAlso(s0, s1, s2, fits);
    g := s2.global;
    AllMerged(s2, |fits|);
    var path :| Run(path, fits) && path[0] == s0 && path[|path| - 1] == s2;
    assert Returns(path, 1, fits, big, g);
  }

  lemma AllMerged(s: State, n: nat)
    requires |s.threads| == 1 && s.threads[0].merged
    ensures Finished(s, n)
  {}

  /** The records a parallel scan can return: nothing found when there is nothing below big, otherwise
      those of the best probes that lead their chunk. */
  lemma CanReturnExactly(fits: seq<Fit>, big: real, g: Fit)
    ensures CanReturn(fits, big, g) <==>
            if Scan(fits, big) == Start(big) then g == Start(big)
            else exists i: nat :: CanWin(fits, i) && g == fits[i]
  {
    hide Fold, Finished, Run, Init;
    if CanReturn(fits, big, g) {
      var path, numThreads :| Returns(path, numThreads, fits, big, g);
      ReturnedWins(path, numThreads, fits, big, g);
    }
    ScanIsFirstMinimum(fits, big);
    if Scan(fits, big) == Start(big) {
      var h := OneThread(fits, big);
      var path, numThreads :| Returns(path, numThreads, fits, big, h);
      ReturnedWins(path, numThreads, fits, big, h);
    } else if i: nat :| CanWin(fits, i) && g == fits[i] {
      var path := ScheduleFor(fits, big, i);
      assert Returns(path, 2, fits, big, g);
    }
  }

  lemma ReturnedWins(path: seq<State>, numThreads: nat, fits: seq<Fit>, big: real, g: Fit)
    requires Returns(path, numThreads, fits, big, g)
    ensures g.d == Scan(fits, big).d && (g == Start(big) <==> Scan(fits, big) == Start(big))
    ensures g != Start(big) ==> exists i: nat :: CanWin(fits, i) && g == fits[i]
  {
    hide Fold, Run, Init, Finished, Leader;
    ParallelMinimum(path, fits, big, numThreads);
    if g != Start(big) {
      var i: nat :| Minimal(fits, i) && Leader(fits, i) && g == fits[i];
      assert CanWin(fits, i);
    }
  }

  /** Every returned record has the least distance, and the sequential record is among them. */
  lemma ScanCanReturn(fits: seq<Fit>, big: real)
    ensures CanReturn(fits, big, Scan(fits, big))
    ensures forall g :: CanReturn(fits, big, g) ==> g.d == Scan(fits, big).d
  {
    var r := Scan(fits, big);
    ScanIsFirstMinimum(fits, big);
    if r != Start(big) {
      var i :| FirstMinimal(fits, i) && r == fits[i];
      assert CanWin(fits, i);
    }
    hide Fold, CanReturn;
    CanReturnExactly(fits, big, r);
    forall g | CanReturn(fits, big, g) ensures g.d == r.d {
      CanReturnExactly(fits, big, g);
    }
  }

  /** All schedules return r exactly when the sequential scan does and has no rivals. */
  lemma OnlyReturn(fits: seq<Fit>, big: real, r: Fit)
    ensures (forall g :: CanReturn(fits, big, g) ==> g == r) <==> Scan(fits, big) == r && NoRivals(fits, big)
  {
    hide Fold, CanReturn;
    ScanCanReturn(fits, big);
    if Scan(fits, big) == r && NoRivals(fits, big) {
      forall g | CanReturn(fits, big, g) ensures g == r {
        CanReturnExactly(fits, big, g);
      }
    } else if Scan(fits, big) == r {
      var i: nat :| Minimal(fits, i) && Leader(fits, i) && fits[i] != r;
      assert CanWin(fits, i);
      CanReturnExactly(fits, big, fits[i]);
    }
  }

  // ----- both scans -----

  ghost function CoarseFits(score: Scorer, xs: seq<real>): seq<Fit>
    requires Samples(xs) && |Uniques(xs)| >= 50
  {
    UniquesInside(xs);
    FitsAt(score, xs, Strata(Uniques(xs)), |Strata(Uniques(xs))|)
  }

  ghost function FineFits(score: Scorer, xs: seq<real>, i: nat): seq<Fit>
    requires Samples(xs) && |Uniques(xs)| >= 50 && i < |Uniques(xs)| / SUBDIVISION
  {
    UniquesInside(xs);
    WindowInside(Uniques(xs), i);
    FitsAt(score, xs, Uniques(xs)[WindowStart(i)..], WindowProbes(i, |Uniques(xs)| / SUBDIVISION))
  }

  /** The second scan, after the first has returned c. */
  ghost predicate CanRefine(score: Scorer, xs: seq<real>, big: real, c: Fit, g: Fit)
    requires Samples(xs) && |Uniques(xs)| >= 50
  {
    UniquesInside(xs);
    var i := Match(xs, Strata(Uniques(xs)), c.xmin, 0);
    if i < |Uniques(xs)| / SUBDIVISION then CanReturn(FineFits(score, xs, i), big, g)
    else CanReturn(AllFits(score, xs), big, g)
  }

  /** Some schedules of the scans end the stratified search with record g. */
  ghost predicate CanFind(score: Scorer, xs: seq<real>, big: real, g: Fit)
    requires Samples(xs)
  {
    if |Uniques(xs)| >= 50 then
      exists c :: CanReturn(CoarseFits(score, xs), big, c) && CanRefine(score, xs, big, c, g)
    else
      CanReturn(AllFits(score, xs), big, g)
  }

  /** Nothing to stratify: few distinct values, or no coarse cutoff with a distance below big. */
  ghost predicate OneScan(score: Scorer, xs: seq<real>, big: real)
    requires Samples(xs)
  {
    |Uniques(xs)| < 50 || CoarseBest(score, xs, big) == Start(big)
  }

  lemma OneScanFinds(score: Scorer, xs: seq<real>, big: real, g: Fit)
    requires Samples(xs) && 0.0 < xs[0] && OneScan(score, xs, big)
    ensures StratifiedBest(score, xs, big) == Scan(AllFits(score, xs), big)
    ensures CanFind(score, xs, big, g) <==> CanReturn(AllFits(score, xs), big, g)
  {
    if |Uniques(xs)| >= 50 {
      CoarseWinner(score, xs, big);
      hide Fold, BlockStarts, Match, CanReturn, AllFits;
      var fits := CoarseFits(score, xs);
      assert CoarseBest(score, xs, big) == Scan(fits, big);
      forall c ensures CanReturn(fits, big, c) <==> c == Start(big) { CanReturnExactly(fits, big, c); }
      assert CanRefine(score, xs, big, Start(big), g) <==> CanReturn(AllFits(score, xs), big, g);
    }
  }

  /** A record of the coarse scan leads back to its own stratum. */
  lemma MatchesItself(score: Scorer, xs: seq<real>, i: nat)
    requires Samples(xs) && |Uniques(xs)| >= 50 && i < |CoarseFits(score, xs)|
    ensures i < |Uniques(xs)| / SUBDIVISION - 1
    ensures Inside(Strata(Uniques(xs)), xs)
    ensures Match(xs, Strata(Uniques(xs)), CoarseFits(score, xs)[i].xmin, 0) == i
  {
    hide BlockStarts, Match;
    UniquesInside(xs);
    var strata := Strata(Uniques(xs));
    var x := CoarseFits(score, xs)[i].xmin;
    MatchFirst(xs, strata, x, 0);
    var k := Match(xs, strata, x, 0);
    assert x == xs[strata[i]];
    if k != i && k < |strata| { StrataDiffer(xs, k, i); }
  }

  /** Stratum i is a best one and leads its chunk: some schedule takes the search to its window. */
  ghost predicate StratumWins(score: Scorer, xs: seq<real>, i: nat)
    requires Samples(xs) && |Uniques(xs)| >= 50
  {
    i < |Uniques(xs)| / SUBDIVISION && CanWin(CoarseFits(score, xs), i)
  }

  /** What the search can end with: what the scan of the window around a best stratum that leads its chunk
      can return. */
  lemma CanFindExactly(score: Scorer, xs: seq<real>, big: real, g: Fit)
    requires Samples(xs) && 0.0 < xs[0] && !OneScan(score, xs, big)
    ensures CanFind(score, xs, big, g) <==>
            exists i: nat :: StratumWins(score, xs, i) && CanReturn(FineFits(score, xs, i), big, g)
  {
    var fits := CoarseFits(score, xs);
    assert CoarseBest(score, xs, big) == Scan(fits, big);
    hide Fold, BlockStarts, Match, CanReturn, AllFits, CoarseFits, FineFits, Strata;
    if CanFind(score, xs, big, g) {
      var c :| CanReturn(fits, big, c) && CanRefine(score, xs, big, c, g);
      CanReturnExactly(fits, big, c);
      var i: nat :| CanWin(fits, i) && c == fits[i];
      MatchesItself(score, xs, i);
      assert StratumWins(score, xs, i) && CanReturn(FineFits(score, xs, i), big, g);
    }
    if i: nat :| StratumWins(score, xs, i) && CanReturn(FineFits(score, xs, i), big, g) {
      CanReturnExactly(fits, big, fits[i]);
      MatchesItself(score, xs, i);
      assert CanRefine(score, xs, big, fits[i], g);
    }
  }

  /** Every window that a schedule can lead to holds the same first best record, without rivals. */
  ghost predicate Settled(score: Scorer, xs: seq<real>, big: real)
    requires Samples(xs)
  {
    if OneScan(score, xs, big) then NoRivals(AllFits(score, xs), big)
    else
      forall i: nat :: StratumWins(score, xs, i) ==>
        Scan(FineFits(score, xs, i), big) == StratifiedBest(score, xs, big) && NoRivals(FineFits(score, xs, i), big)
  }

  /** The parallel search returns the sequential result under every schedule exactly when the scans are
      settled. */
  lemma ParallelSearchAgrees(score: Scorer, xs: seq<real>, big: real)
    requires Samples(xs) && 0.0 < xs[0]
    ensures (forall g :: CanFind(score, xs, big, g) ==> g == StratifiedBest(score, xs, big))
            <==> Settled(score, xs, big)
  {
    hide Fold, BlockStarts, CanReturn, CanFind, AllFits, CoarseFits, FineFits, NoRivals, Scan, StratifiedBest, CanWin;
    var r := StratifiedBest(score, xs, big);
    if OneScan(score, xs, big) {
      forall g { OneScanFinds(score, xs, big, g); }
      OnlyReturn(AllFits(score, xs), big, r);
    } else {
      forall g { CanFindExactly(score, xs, big, g); }
      forall i: nat | StratumWins(score, xs, i) { OnlyReturn(FineFits(score, xs, i), big, r); }
      if Settled(score, xs, big) {
        forall g | CanFind(score, xs, big, g) ensures g == r {
          var i: nat :| StratumWins(score, xs, i) && CanReturn(FineFits(score, xs, i), big, g);
        }
      } else {
        var i: nat :| StratumWins(score, xs, i)
                      && !(Scan(FineFits(score, xs, i), big) == r && NoRivals(FineFits(score, xs, i), big));
        var g :| CanReturn(FineFits(score, xs, i), big, g) && g != r;
        assert CanFind(score, xs, big, g);
      }
    }
  }

  /** ... and the sequential distance exactly when all those windows have the same least distance. */
  lemma ParallelDistanceAgrees(score: Scorer, xs: seq<real>, big: real)
    requires Samples(xs) && 0.0 < xs[0]
    ensures (forall g :: CanFind(score, xs, big, g) ==> g.d == StratifiedBest(score, xs, big).d)
            <==> (OneScan(score, xs, big) ||
                  forall i: nat :: StratumWins(score, xs, i) ==>
                    Scan(FineFits(score, xs, i), big).d == StratifiedBest(score, xs, big).d)
  {
    hide Fold, BlockStarts, CanReturn, CanFind, AllFits, CoarseFits, FineFits, Scan, StratifiedBest, CanWin;
    if OneScan(score, xs, big) {
      forall g { OneScanFinds(score, xs, big, g); }
      ScanCanReturn(AllFits(score, xs), big);
    } else {
      forall g { CanFindExactly(score, xs, big, g); }
      forall i: nat | StratumWins(score, xs, i)
        ensures CanFind(score, xs, big, Scan(FineFits(score, xs, i), big))
        ensures forall g :: CanReturn(FineFits(score, xs, i), big, g) ==> g.d == Scan(FineFits(score, xs, i), big).d
      {
        ScanCanReturn(FineFits(score, xs, i), big);
      }
    }
  }

  /** The sequential result is always among the possible ones. */
  lemma SequentialCanFind(score: Scorer, xs: seq<real>, big: real)
    requires Samples(xs)
    ensures CanFind(score, xs, big, StratifiedBest(score, xs, big))
  {
    hide Fold, BlockStarts, Match, CanReturn, Scan;
    ScanCanReturn(AllFits(score, xs), big);
    if |Uniques(xs)| >= 50 {
      var i := Winner(score, xs, big);
      ScanCanReturn(CoarseFits(score, xs), big);
      if i < |Uniques(xs)| / SUBDIVISION { ScanCanReturn(FineFits(score, xs, i), big); }
      assert CanRefine(score, xs, big, CoarseBest(score, xs, big), StratifiedBest(score, xs, big));
    }
  }

  // ----- a sample on which even the distance depends on the schedule -----

  /** The samples 1, 2, ..., 120. */
  function Ramp(): seq<real> {
    seq(120, i => (i + 1) as real)
  }

  /** A distance of 1 at the cutoffs 1 and 101, of 0 at 96, and of 2 elsewhere. */
  function TwoValleys(): Scorer {
    tail => Score(2.0, if |tail| == 0 then 2.0
                       else if tail[0] == 1.0 || tail[0] == 101.0 then 1.0
                       else if tail[0] == 96.0 then 0.0
                       else 2.0)
  }

  lemma {:induction false} RampStarts(hi: nat)
    requires hi <= 120
    ensures |BlockStarts(Ramp(), hi)| == hi && forall k :: 0 <= k < hi ==> BlockStarts(Ramp(), hi)[k] == k
  {
    if hi > 0 { RampStarts(hi - 1); }
  }

  lemma RampUniques()
    ensures Samples(Ramp()) && 0.0 < Ramp()[0] && |Uniques(Ramp())| == 120
    ensures forall k :: 0 <= k < 120 ==> Uniques(Ramp())[k] == k
  {
    RampStarts(120);
    hide BlockStarts;
  }

  lemma RampDistance(j: nat)
    requires j < 120
    ensures FitAt(TwoValleys(), Ramp(), j).d == if j == 0 || j == 100 then 1.0 else if j == 95 then 0.0 else 2.0
  {}

  lemma RampCoarse()
    ensures Samples(Ramp()) && |Uniques(Ramp())| == 120
    ensures var coarse := CoarseFits(TwoValleys(), Ramp());
      |coarse| == 11 && forall k :: 0 <= k < 11 ==> coarse[k].d == if k == 0 || k == 10 then 1.0 else 2.0
  {
    RampUniques();
    forall j | 0 <= j < 120 { RampDistance(j); }
    hide BlockStarts, FitAt, TwoValleys, Ramp;
  }

  lemma RampNear()
    ensures Samples(Ramp()) && |Uniques(Ramp())| == 120
    ensures var near := FineFits(TwoValleys(), Ramp(), 0);
      |near| == 9 && forall k :: 0 <= k < 9 ==> near[k].d == if k == 0 then 1.0 else 2.0
  {
    RampUniques();
    forall j | 0 <= j < 9 { RampDistance(j); }
    hide BlockStarts, FitAt, TwoValleys, Ramp;
  }

  lemma RampFar()
    ensures Samples(Ramp()) && |Uniques(Ramp())| == 120
    ensures var far := FineFits(TwoValleys(), Ramp(), 10);
      |far| == 19 && far[5].d == 0.0 && forall k :: 0 <= k < 19 ==> 0.0 <= far[k].d
  {
    RampUniques();
    forall j | 90 <= j < 109 { RampDistance(j); }
    hide BlockStarts, FitAt, TwoValleys, Ramp;
  }

  lemma StrataTie()
    ensures Samples(Ramp()) && |Uniques(Ramp())| == 120
    ensures StratumWins(TwoValleys(), Ramp(), 0) && StratumWins(TwoValleys(), Ramp(), 10)
  {
    RampCoarse();
    hide CoarseFits, TwoValleys, Ramp, Samples, Uniques;
  }

  lemma CoarseIsScan(score: Scorer, xs: seq<real>, big: real)
    requires Samples(xs) && |Uniques(xs)| >= 50
    ensures CoarseBest(score, xs, big) == Scan(CoarseFits(score, xs), big)
  {}

  /** The sequential coarse scan stops at the first stratum. */
  lemma FirstStratum(big: real)
    requires 2.0 < big
    ensures Samples(Ramp()) && |Uniques(Ramp())| == 120 && CoarseBest(TwoValleys(), Ramp(), big).d == 1.0
    ensures Winner(TwoValleys(), Ramp(), big) == 0
  {
    hide TwoValleys, Ramp, Match, Scan, CoarseFits, Samples, Uniques;
    RampCoarse();
    var score, xs := TwoValleys(), Ramp();
    var coarse := CoarseFits(score, xs);
    CoarseIsScan(score, xs, big);
    ScanIsFirstMinimum(coarse, big);
    assert coarse[0].d == 1.0;
    var w :| FirstMinimal(coarse, w) && Scan(coarse, big) == coarse[w];
    assert w == 0;
    MatchesItself(score, xs, 0);
  }

  lemma LeastIs(fits: seq<Fit>, big: real, k: nat)
    requires k < |fits| && fits[k].d < big && forall j :: 0 <= j < |fits| ==> fits[k].d <= fits[j].d
    ensures Scan(fits, big).d == fits[k].d
  {
    hide Scan;
    ScanBelow(fits, big);
  }

  /** The sequential search stays in the first window. */
  lemma NearResult(big: real)
    requires 2.0 < big
    ensures Samples(Ramp()) && |Uniques(Ramp())| == 120 && CoarseBest(TwoValleys(), Ramp(), big).d == 1.0
    ensures StratifiedBest(TwoValleys(), Ramp(), big).d == 1.0
  {
    hide TwoValleys, Ramp, Scan, Samples, Uniques, Winner, FineFits;
    RampNear();
    FirstStratum(big);
    FineIsScan(TwoValleys(), Ramp(), 0, big);
    LeastIs(FineFits(TwoValleys(), Ramp(), 0), big, 0);
  }

  lemma FineIsScan(score: Scorer, xs: seq<real>, i: nat, big: real)
    requires Samples(xs) && |Uniques(xs)| >= 50 && i < |Uniques(xs)| / SUBDIVISION
    ensures FineBest(score, xs, i, big) == Scan(FineFits(score, xs, i), big)
  {}

  /** Strata 0 and 10 tie, and each leads its chunk; only the window of the second holds the best cutoff. */
  lemma DistanceDependsOnSchedule(big: real)
    requires 2.0 < big
    ensures Samples(Ramp()) && StratifiedBest(TwoValleys(), Ramp(), big).d == 1.0
    ensures exists g :: CanFind(TwoValleys(), Ramp(), big, g) && g.d == 0.0
  {
    RampUniques();
    NearResult(big);
    hide *;
    var score, xs := TwoValleys(), Ramp();
    NotOneScan(score, xs, big);
    StrataTie();
    RampFar();
    var far := FineFits(score, xs, 10);
    LeastIs(far, big, 5);
    ScanCanReturn(far, big);
    CanFindExactly(score, xs, big, Scan(far, big));
  }

  lemma NotOneScan(score: Scorer, xs: seq<real>, big: real)
    requires Samples(xs) && |Uniques(xs)| >= 50 && CoarseBest(score, xs, big).d < big
    ensures !OneScan(score, xs, big)
  {}
}
