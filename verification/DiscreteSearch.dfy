/** The search for the cutoff of a discrete power law in src/plfit.c, with the distance it minimises. */
module DiscreteSearch {
  import opened Interpolation
  import opened SortedSamples
  import opened XminScan

  const PLFIT_EINVAL := 2

  // ----- the Kolmogorov-Smirnov distance -----

  /** Exponent, cutoff and x give the fitted term of the distance, expm1(lnhzeta(alpha, x) - lnhzeta(alpha, xmin)). */
  type Model = (real, real, real) -> real

  function Gap(xs: seq<real>, fitted: Model, alpha: real, xmin: real, x: real, below: int): real
    requires |xs| > 0
  {
    Abs(fitted(alpha, xmin, x) + below as real / |xs| as real)
  }

  /** The largest gap at the first hi samples, each distinct value taken once. */
  function KsUpTo(xs: seq<real>, fitted: Model, alpha: real, xmin: real, hi: nat): (d: real)
    requires hi <= |xs|
    ensures d >= 0.0
  {
    if hi == 0 then 0.0
    else
      var d := KsUpTo(xs, fitted, alpha, xmin, hi - 1);
      if IsBlockStart(xs, hi - 1) && d < Gap(xs, fitted, alpha, xmin, xs[hi - 1], hi - 1) then
        Gap(xs, fitted, alpha, xmin, xs[hi - 1], hi - 1)
      else d
  }

  function KsDistance(xs: seq<real>, fitted: Model, alpha: real, xmin: real): real {
    KsUpTo(xs, fitted, alpha, xmin, |xs|)
  }

  /** The gap at sample j, where the empirical term is the share of the samples below its value. */
  function GapAt(xs: seq<real>, fitted: Model, alpha: real, xmin: real, j: nat): real
    requires j < |xs|
  {
    Gap(xs, fitted, alpha, xmin, xs[j], |xs| - NumAtLeast(xs, xs[j]))
  }

  /** The distance is the largest magnitude, over all samples, of the fitted term plus the share of smaller
      samples; it is zero without samples. */
  lemma KsIsMaximum(xs: seq<real>, fitted: Model, alpha: real, xmin: real)
    requires Sorted(xs)
    ensures var d, n := KsDistance(xs, fitted, alpha, xmin), |xs|;
      && (n == 0 ==> d == 0.0)
      && (forall j :: 0 <= j < n ==>
            -d <= fitted(alpha, xmin, xs[j]) + |Smaller(xs, xs[j])| as real / n as real <= d)
      && (n > 0 ==>
            exists j :: 0 <= j < n
                        && (var v := fitted(alpha, xmin, xs[j]) + |Smaller(xs, xs[j])| as real / n as real;
                            v == d || v == -d))
  {
    var d, n := KsDistance(xs, fitted, alpha, xmin), |xs|;
    KsUpToIsMaximum(xs, fitted, alpha, xmin, n);
    forall j | 0 <= j < n
      ensures var v := fitted(alpha, xmin, xs[j]) + |Smaller(xs, xs[j])| as real / n as real;
              -d <= v <= d && (GapAt(xs, fitted, alpha, xmin, j) == d ==> v == d || v == -d)
    {
      SmallerCount(xs, xs[j], n);
      hide KsUpTo, CountAtLeast, Smaller;
      assert GapAt(xs, fitted, alpha, xmin, j) <= d;
    }
    hide KsUpTo, NumAtLeast, Gap, GapAt, Smaller;
  }

  lemma {:induction false} KsUpToIsMaximum(xs: seq<real>, fitted: Model, alpha: real, xmin: real, hi: nat)
    requires Sorted(xs) && hi <= |xs|
    ensures var d := KsUpTo(xs, fitted, alpha, xmin, hi);
      && (forall j :: 0 <= j < hi ==> GapAt(xs, fitted, alpha, xmin, j) <= d)
      && (hi > 0 ==> exists j :: 0 <= j < hi && GapAt(xs, fitted, alpha, xmin, j) == d)
  {
    if hi > 0 {
      KsUpToIsMaximum(xs, fitted, alpha, xmin, hi - 1);
      var i := hi - 1;
      TailIsCount(xs, i);
      hide Gap, NumAtLeast;
      if IsBlockStart(xs, i) {
        assert GapAt(xs, fitted, alpha, xmin, i) == Gap(xs, fitted, alpha, xmin, xs[i], i);
      } else {
        assert GapAt(xs, fitted, alpha, xmin, i) == GapAt(xs, fitted, alpha, xmin, i - 1);
      }
    }
  }

  method KsTest(xs: seq<real>, fitted: Model, alpha: real, xmin: real) returns (d: real)
    ensures d == KsDistance(xs, fitted, alpha, xmin)
  {
    d := 0.0;
    var px, m := 0, 0;
    while px < |xs|
      invariant m == px <= |xs| && d == KsUpTo(xs, fitted, alpha, xmin, px)
      invariant px < |xs| ==> IsBlockStart(xs, px)
    {
      var x := xs[px];
      var gap := Abs(fitted(alpha, xmin, x) + m as real / |xs| as real);
      if gap > d { d := gap; }
      px, m := px + 1, m + 1;
      while px < |xs| && xs[px] == x
        invariant m == px <= |xs| && xs[px - 1] == x && d == KsUpTo(xs, fitted, alpha, xmin, px)
      {
        px, m := px + 1, m + 1;
      }
    }
  }

  // ----- the cutoffs that are tried -----

  /** Block starts in [lo, hi). */
  function StartsIn(xs: seq<real>, lo: nat, hi: nat): seq<nat>
    requires hi <= |xs|
    decreases hi
  {
    if hi <= lo then []
    else StartsIn(xs, lo, hi - 1) + if IsBlockStart(xs, hi - 1) then [hi - 1] else []
  }

  lemma {:induction false} StartsInRange(xs: seq<real>, lo: nat, hi: nat)
    requires hi <= |xs|
    ensures forall k :: 0 <= k < |StartsIn(xs, lo, hi)| ==> lo <= StartsIn(xs, lo, hi)[k] < hi
  {
    if lo < hi { StartsInRange(xs, lo, hi - 1); }
  }

  lemma {:induction false} StartsInExact(xs: seq<real>, lo: nat, hi: nat, j: nat)
    requires hi <= |xs|
    ensures j in StartsIn(xs, lo, hi) <==> lo <= j < hi && IsBlockStart(xs, j)
  {
    if lo < hi { StartsInExact(xs, lo, hi - 1, j); }
  }

  lemma {:induction false} StartsInIncrease(xs: seq<real>, lo: nat, hi: nat, j: nat, k: nat)
    requires hi <= |xs| && j < k < |StartsIn(xs, lo, hi)|
    ensures StartsIn(xs, lo, hi)[j] < StartsIn(xs, lo, hi)[k]
  {
    var before := StartsIn(xs, lo, hi - 1);
    if k < |before| {
      StartsInIncrease(xs, lo, hi - 1, j, k);
    } else {
      StartsInRange(xs, lo, hi - 1);
      assert before[j] < hi - 1;
    }
  }

  lemma {:induction false} StartsSplit(xs: seq<real>, lo: nat, mid: nat, hi: nat)
    requires lo <= mid <= hi <= |xs|
    ensures StartsIn(xs, lo, hi) == StartsIn(xs, lo, mid) + StartsIn(xs, mid, hi)
  {
    if mid < hi { StartsSplit(xs, lo, mid, hi - 1); }
  }

  /** A block start between lo and hi splits the list. */
  lemma StartsAround(xs: seq<real>, lo: nat, j: nat, hi: nat)
    requires lo <= j < hi <= |xs| && IsBlockStart(xs, j)
    ensures StartsIn(xs, lo, hi) == StartsIn(xs, lo, j) + [j] + StartsIn(xs, j + 1, hi)
  {
    StartsSplit(xs, lo, j, hi);
    StartsSplit(xs, j, j + 1, hi);
    assert StartsIn(xs, j, j + 1) == [j] by {
      assert StartsIn(xs, j, j) == [];
    }
    hide StartsIn;
  }

  /** The first sample that is at least one. */
  function FirstFrom(xs: seq<real>, i: nat): (r: nat)
    requires i <= |xs|
    ensures i <= r <= |xs| && (r < |xs| ==> 1.0 <= xs[r]) && forall j :: i <= j < r ==> xs[j] < 1.0
    decreases |xs| - i
  {
    if i < |xs| && xs[i] < 1.0 then FirstFrom(xs, i + 1) else i
  }

  function First(xs: seq<real>): nat {
    FirstFrom(xs, 0)
  }

  /** Going down from e while the value is v, not below lo. */
  function SkipBack(xs: seq<real>, lo: nat, e: nat, v: real): (r: nat)
    requires lo <= e < |xs|
    ensures lo <= r <= e
  {
    if e > lo && xs[e] == v then SkipBack(xs, lo, e - 1, v) else e
  }

  lemma {:induction false} SkipBackStops(xs: seq<real>, lo: nat, e: nat, v: real)
    requires lo <= e < |xs|
    ensures var r := SkipBack(xs, lo, e, v); (forall j :: r < j <= e ==> xs[j] == v) && (r == lo || xs[r] != v)
  {
    if e > lo && xs[e] == v { SkipBackStops(xs, lo, e - 1, v); }
  }

  /** Where the scan is told to stop: two blocks are dropped from the end. */
  function EndXmin(xs: seq<real>, f: nat): nat
    requires f < |xs|
  {
    var e := SkipBack(xs, f, |xs| - 1, xs[|xs| - 1]);
    SkipBack(xs, f, e, xs[e]) + 1
  }

  /** Where it does stop: skipping the rest of a block may carry it onto the first dropped element. */
  function Limit(xs: seq<real>): (r: nat)
    ensures r <= |xs|
  {
    var f := First(xs);
    if f == |xs| then f
    else
      var e := EndXmin(xs, f);
      if e > f + 1 && e < |xs| && xs[e - 2] == xs[e - 1] then e + 1 else e
  }

  function Tried(xs: seq<real>): seq<nat> {
    StartsIn(xs, First(xs), Limit(xs))
  }

  /** Distinct samples at least one, and those beyond sample j. */
  function Distinct(xs: seq<real>): nat {
    |StartsIn(xs, First(xs), |xs|)|
  }

  function DistinctAbove(xs: seq<real>, j: nat): nat {
    |StartsIn(xs, j + 1, |xs|)|
  }

  lemma FirstIsStart(xs: seq<real>)
    requires First(xs) < |xs|
    ensures IsBlockStart(xs, First(xs))
  {}

  lemma {:induction false} NoStarts(xs: seq<real>, lo: nat, hi: nat)
    requires 0 < lo <= hi <= |xs| && forall j :: lo <= j < hi ==> xs[j] == xs[lo - 1]
    ensures StartsIn(xs, lo, hi) == []
  {
    if lo < hi { NoStarts(xs, lo, hi - 1); }
  }

  /** Dropping the block that ends at e drops one start, or leaves the block that begins at lo. */
  lemma DropBlock(xs: seq<real>, lo: nat, e: nat)
    requires lo <= e < |xs| && IsBlockStart(xs, lo)
    ensures var r := SkipBack(xs, lo, e, xs[e]);
      if xs[r] == xs[e] then r == lo && StartsIn(xs, lo, e + 1) == [lo]
      else r + 1 <= e && IsBlockStart(xs, r + 1) && StartsIn(xs, lo, e + 1) == StartsIn(xs, lo, r + 1) + [r + 1]
  {
    var r := SkipBack(xs, lo, e, xs[e]);
    SkipBackStops(xs, lo, e, xs[e]);
    assert StartsIn(xs, lo, lo) == [];
    LastBlock(xs, lo, if xs[r] == xs[e] then lo else r + 1, e);
  }

  lemma LastBlock(xs: seq<real>, lo: nat, start: nat, e: nat)
    requires lo <= start <= e < |xs| && IsBlockStart(xs, start)
    requires forall j :: start < j <= e ==> xs[j] == xs[start]
    ensures StartsIn(xs, lo, e + 1) == StartsIn(xs, lo, start) + [start]
  {
    hide StartsIn;
    StartsAround(xs, lo, start, e + 1);
    NoStarts(xs, start + 1, e + 1);
  }

  /** With three distinct values or more the end is the start of the second largest; otherwise only the
      first value is left. */
  lemma EndXminExact(xs: seq<real>)
    requires First(xs) < |xs|
    ensures Distinct(xs) <= 2 ==> EndXmin(xs, First(xs)) == First(xs) + 1
    ensures Distinct(xs) > 2 ==> First(xs) < EndXmin(xs, First(xs)) < |xs| && IsBlockStart(xs, EndXmin(xs, First(xs)))
    ensures Distinct(xs) > 2 ==> DistinctAbove(xs, EndXmin(xs, First(xs))) == 1
  {
    FirstIsStart(xs);
    var f, n := First(xs), |xs|;
    var e1 := SkipBack(xs, f, n - 1, xs[n - 1]);
    DropCount(xs, f, n - 1);
    hide First, SkipBack, StartsIn, IsBlockStart;
    if xs[e1] != xs[n - 1] { SecondBlock(xs, f, e1); }
  }

  /** Dropping a second block, when the largest value starts after e. */
  lemma SecondBlock(xs: seq<real>, f: nat, e: nat)
    requires f <= e < |xs| - 1 && IsBlockStart(xs, f)
    requires |StartsIn(xs, f, |xs|)| == |StartsIn(xs, f, e + 1)| + 1
    ensures var r := SkipBack(xs, f, e, xs[e]);
      if |StartsIn(xs, f, |xs|)| <= 2 then r == f
      else r + 1 <= e && IsBlockStart(xs, r + 1) && |StartsIn(xs, r + 2, |xs|)| == 1
  {
    hide SkipBack, StartsIn, IsBlockStart;
    var r := SkipBack(xs, f, e, xs[e]);
    DropCount(xs, f, e);
    if xs[r] != xs[e] {
      CountAround(xs, f, r + 1, |xs|);
      CountAround(xs, f, f, r + 1);
    }
  }

  lemma DropCount(xs: seq<real>, lo: nat, e: nat)
    requires lo <= e < |xs| && IsBlockStart(xs, lo)
    ensures var r := SkipBack(xs, lo, e, xs[e]);
      if xs[r] == xs[e] then r == lo && |StartsIn(xs, lo, e + 1)| == 1
      else r + 1 <= e && IsBlockStart(xs, r + 1) && |StartsIn(xs, lo, e + 1)| == |StartsIn(xs, lo, r + 1)| + 1
  {
    hide StartsIn, SkipBack;
    DropBlock(xs, lo, e);
  }

  lemma CountAround(xs: seq<real>, lo: nat, j: nat, hi: nat)
    requires lo <= j < hi <= |xs| && IsBlockStart(xs, j)
    ensures |StartsIn(xs, lo, hi)| == |StartsIn(xs, lo, j)| + 1 + |StartsIn(xs, j + 1, hi)|
  {
    hide StartsIn;
    StartsAround(xs, lo, j, hi);
  }

  /** A cutoff is tried exactly when it is the first sample of its value, at least one, and is the
      smallest such value, or has two larger values above it, or has one and the value before it is
      repeated. */
  lemma TriedExact(xs: seq<real>, j: nat)
    ensures j in Tried(xs) <==>
      First(xs) <= j < |xs| && IsBlockStart(xs, j) && (j == First(xs) || DistinctAbove(xs, j) >= 2
        || (DistinctAbove(xs, j) == 1 && j >= First(xs) + 2 && xs[j - 2] == xs[j - 1]))
  {
    var f, n := First(xs), |xs|;
    StartsInExact(xs, f, Limit(xs), j);
    hide First, EndXmin, StartsIn;
    if f <= j < n && IsBlockStart(xs, j) {
      EndXminExact(xs);
      var e := EndXmin(xs, f);
      if Distinct(xs) <= 2 {
        if j > f { StartAbove(xs, j); }
      } else if j < e {
        AboveBefore(xs, j, e);
      } else if j > e {
        AboveBefore(xs, e, j);
      }
    }
  }

  /** A start that is not the first has one start before it. */
  lemma StartAbove(xs: seq<real>, j: nat)
    requires First(xs) < j < |xs| && IsBlockStart(xs, j)
    ensures DistinctAbove(xs, j) + 2 <= Distinct(xs)
  {
    FirstIsStart(xs);
    CountAround(xs, First(xs), j, |xs|);
    CountAround(xs, First(xs), First(xs), j);
  }

  /** The later of two starts has fewer values above it. */
  lemma AboveBefore(xs: seq<real>, j: nat, k: nat)
    requires j < k < |xs| && IsBlockStart(xs, k)
    ensures DistinctAbove(xs, k) + 1 <= DistinctAbove(xs, j)
  {
    CountAround(xs, j + 1, k, |xs|);
  }

  /** The values are tried in strictly increasing order. */
  lemma TriedIncreases(xs: seq<real>, j: nat, k: nat)
    requires Sorted(xs) && j < k < |Tried(xs)|
    ensures Tried(xs)[j] < Tried(xs)[k] < |xs| && xs[Tried(xs)[j]] < xs[Tried(xs)[k]]
  {
    var f, l := First(xs), Limit(xs);
    StartsInIncrease(xs, f, l, j, k);
    StartsInRange(xs, f, l);
    var a, b := Tried(xs)[j], Tried(xs)[k];
    StartsInExact(xs, f, l, b);
    assert b in StartsIn(xs, f, l);
    assert xs[a] <= xs[b - 1] < xs[b];
  }

  /** The largest value is tried only when it is the only one. */
  lemma LargestNotTried(xs: seq<real>, j: nat)
    requires j in Tried(xs) && Distinct(xs) >= 2
    ensures DistinctAbove(xs, j) >= 1
  {
    TriedExact(xs, j);
    CountAround(xs, First(xs), j, |xs|);
  }

  /** Three distinct values remain above or at every tried cutoff, where there are three at all, exactly
      when the one that is third from the top occurs once. */
  lemma ThreeValuesLeft(xs: seq<real>)
    requires Distinct(xs) >= 3
    ensures var us := StartsIn(xs, First(xs), |xs|);
      (forall j :: j in Tried(xs) ==> DistinctAbove(xs, j) >= 2) <==> us[|us| - 2] == us[|us| - 3] + 1
  {
    var f, n := First(xs), |xs|;
    var us := StartsIn(xs, f, n);
    EndXminExact(xs);
    FirstIsStart(xs);
    var e := EndXmin(xs, f);
    StartsAround(xs, f, e, n);
    assert us[|us| - 2] == e;
    TriedExact(xs, e);
    LastStart(xs, f, e);
    assert us[|us| - 3] == StartsIn(xs, f, e)[|us| - 3];
    forall j | j in Tried(xs) && j != e ensures DistinctAbove(xs, j) >= 2 {
      TriedExact(xs, j);
      if j < e { AboveBefore(xs, j, e); } else { AboveBefore(xs, e, j); }
    }
  }

  /** The block before a block start is single exactly when the start before it is its neighbour. */
  lemma LastStart(xs: seq<real>, f: nat, e: nat)
    requires f < e < |xs| && IsBlockStart(xs, f) && IsBlockStart(xs, e)
    ensures var us := StartsIn(xs, f, e);
      |us| > 0 && (us[|us| - 1] == e - 1 <==> !(e >= f + 2 && xs[e - 2] == xs[e - 1]))
  {
    CountAround(xs, f, f, e);
    StartsInExact(xs, f, e, e - 1);
    var us := StartsIn(xs, f, e);
    assert us[|us| - 1] in us;
  }

  /** A sample for which the promise of three distinct values fails: the cutoff 2 is tried with only 2
      and 3 above it. */
  lemma TwoValuesTried()
    ensures var xs := [1.0, 1.0, 2.0, 3.0];
      Sorted(xs) && Distinct(xs) == 3 && 2 in Tried(xs) && DistinctAbove(xs, 2) == 1
  {
    var xs := [1.0, 1.0, 2.0, 3.0];
    assert First(xs) == 0;
    FourStarts(xs);
    hide StartsIn, Tried;
    TriedExact(xs, 2);
  }

  lemma FourStarts(xs: seq<real>)
    requires |xs| == 4 && xs[0] == xs[1] < xs[2] < xs[3]
    ensures |StartsIn(xs, 0, 4)| == 3 && |StartsIn(xs, 3, 4)| == 1
  {
    NoStarts(xs, 1, 2);
    NoStarts(xs, 1, 1);
    StartsAround(xs, 0, 0, 2);
    StartsAround(xs, 3, 3, 4);
    StartsAround(xs, 0, 2, 4);
    assert StartsIn(xs, 0, 0) == StartsIn(xs, 3, 3) == StartsIn(xs, 4, 4) == [];
  }

  // ----- the search -----

  datatype AlphaMethod = Lbfgs | LinearScan(min: real, max: real, step: real) | PretendContinuous

  datatype Estimate = Estimated(alpha: real) | Failed(code: int)

  /** The exponent fitted to a tail of samples whose first element is the cutoff. */
  type Estimator = seq<real> -> Estimate

  datatype SearchResult = Error(code: int) | Found(best: Fit)

  predicate ValidOptions(n: nat, alphaMethod: AlphaMethod) {
    && n > 0
    && (alphaMethod.LinearScan? ==>
          alphaMethod.min > 1.0 && alphaMethod.max >= alphaMethod.min && alphaMethod.step > 0.0)
  }

  function StartDiscrete(big: real): Fit {
    Fit(big, 1.0, 1.0, 0)
  }

  function FitAt(xs: seq<real>, estimate: Estimator, fitted: Model, j: nat): Fit
    requires j < |xs| && estimate(xs[j..]).Estimated?
  {
    var alpha := estimate(xs[j..]).alpha;
    Fit(KsDistance(xs[j..], fitted, alpha, xs[j]), alpha, xs[j], |xs| - j)
  }

  ghost predicate Estimable(xs: seq<real>, estimate: Estimator, tried: seq<nat>) {
    forall k :: 0 <= k < |tried| ==> tried[k] < |xs| && estimate(xs[tried[k]..]).Estimated?
  }

  ghost function FitsAt(xs: seq<real>, estimate: Estimator, fitted: Model, tried: seq<nat>): seq<Fit>
    requires Estimable(xs, estimate, tried)
  {
    seq(|tried|, k requires 0 <= k < |tried| => FitAt(xs, estimate, fitted, tried[k]))
  }

  /** An estimation error at the first failing cutoff ends the search. */
  ghost predicate FirstFailure(xs: seq<real>, estimate: Estimator, tried: seq<nat>, code: int) {
    exists k :: 0 <= k < |tried| && Estimable(xs, estimate, tried[..k]) && tried[k] < |xs|
                && estimate(xs[tried[k]..]) == Failed(code)
  }

  /** Dropping the block of equal values that ends at the given position. */
  method DropLastBlock(xs: seq<real>, px: nat, start: nat) returns (endXmin: nat)
    requires start < |xs| && px <= |xs| && (px < |xs| ==> px <= start)
    ensures endXmin == if px < |xs| then SkipBack(xs, px, start, xs[start]) else start
  {
    endXmin := start;
    var prevX := xs[start];
    while endXmin > px && xs[endXmin] == prevX
      invariant endXmin <= start && (px < |xs| ==> px <= endXmin)
      invariant px == |xs| ==> endXmin == start
      invariant px < |xs| ==> SkipBack(xs, px, start, prevX) == SkipBack(xs, px, endXmin, prevX)
    {
      endXmin := endXmin - 1;
    }
  }

  /** The bounds of the scan. */
  method Bounds(xs: seq<real>) returns (px: nat, endXmin: nat)
    requires |xs| > 0
    ensures px == First(xs) && endXmin <= |xs|
    ensures endXmin == if px < |xs| then EndXmin(xs, px) else |xs|
  {
    px := 0;
    while px < |xs| && xs[px] < 1.0
      invariant px <= |xs| && First(xs) == FirstFrom(xs, px)
    {
      px := px + 1;
    }
    endXmin := DropLastBlock(xs, px, |xs| - 1);
    endXmin := DropLastBlock(xs, px, endXmin);
    endXmin := endXmin + 1;
  }

  /** px is the next block start after the ones tried before head, and is still to be tried. */
  ghost predicate Next(xs: seq<real>, f: nat, head: nat, px: nat) {
    && head <= px < |xs| && IsBlockStart(xs, px) && f == First(xs) <= px < Limit(xs)
    && StartsIn(xs, f, px) == StartsIn(xs, f, head) && StartsIn(xs, f, px + 1) == StartsIn(xs, f, px) + [px]
  }

  /** To the next block start: the inner loop. */
  method NextCutoff(xs: seq<real>, head: nat, before: nat, endXmin: nat, prevX: real, ghost f: nat)
    returns (px: nat, m: nat)
    requires AtHead(xs, f, head, prevX, endXmin) && head < endXmin <= |xs| && before == head
    ensures head <= m == px < |xs| && Next(xs, f, head, px)
    ensures AtHead(xs, f, px + 1, xs[px], endXmin)
  {
    hide First, EndXmin, Limit, StartsIn;
    px, m := head, before;
    while px < endXmin && xs[px] == prevX
      invariant head <= px <= endXmin && m == px
      invariant forall j :: head <= j < px ==> xs[j] == prevX
    {
      px, m := px + 1, m + 1;
    }
    AfterSkip(xs, f, head, px, prevX, endXmin);
  }

  /** The best record after the block starts in [f, px) have been tried, all estimates having succeeded. */
  ghost predicate BestBefore(xs: seq<real>, estimate: Estimator, fitted: Model, big: real, f: nat, px: nat, best: Fit) {
    && px <= |xs| && Estimable(xs, estimate, StartsIn(xs, f, px))
    && best == Fold(StartDiscrete(big), FitsAt(xs, estimate, fitted, StartsIn(xs, f, px)), 0, |StartsIn(xs, f, px)|)
  }

  ghost predicate Searched(xs: seq<real>, estimate: Estimator, fitted: Model, big: real, r: SearchResult) {
    match r
    case Error(code) => FirstFailure(xs, estimate, Tried(xs), code)
    case Found(best) => BestBefore(xs, estimate, fitted, big, First(xs), Limit(xs), best)
  }

  /** One evaluation: the exponent of the n - m samples from px on, their distance, and the record. */
  method TryCutoff(xs: seq<real>, px: nat, m: nat, estimate: Estimator, fitted: Model, best: Fit, ghost big: real,
                   ghost f: nat, ghost head: nat)
    returns (r: SearchResult)
    requires px == m < |xs| && BestBefore(xs, estimate, fitted, big, f, head, best) && Next(xs, f, head, px)
    ensures r.Error? ==> FirstFailure(xs, estimate, Tried(xs), r.code)
    ensures r.Found? ==> BestBefore(xs, estimate, fitted, big, f, px + 1, r.best)
  {
    hide StartsIn, KsDistance, Fold, FitAt, FitsAt, Estimable, First, Limit, Tried, FirstFailure;
    var n := |xs|;
    assert px + (n - m) == n && xs[px..n] == xs[px..];
    var e := estimate(xs[px..px + (n - m)]);
    if e.Failed? {
      FailureAt(xs, estimate, fitted, big, f, px, best, e.code);
      return Error(e.code);
    }
    var d := KsTest(xs[px..], fitted, e.alpha, xs[px]);
    OneMore(xs, estimate, fitted, StartsIn(xs, f, px), px, e.alpha, d, StartDiscrete(big));
    if d < best.d {
      return Found(Fit(d, e.alpha, xs[px], n - m));
    }
    return Found(best);
  }

  /** The scan over the cutoffs, left at the first estimation error. */
  method ScanCutoffs(xs: seq<real>, estimate: Estimator, fitted: Model, big: real) returns (r: SearchResult)
    requires |xs| > 0
    ensures Searched(xs, estimate, fitted, big, r)
  {
    hide First, EndXmin, Limit, StartsIn, BestBefore, AtHead, FirstFailure, Sorted, Next, Tried, StartDiscrete;
    var px, endXmin := Bounds(xs);
    ghost var f := px;
    var m, prevX := px, 0.0;
    r := Found(StartDiscrete(big));
    NothingTried(xs, estimate, fitted, big, endXmin);
    while px < endXmin
      invariant m == px && AtHead(xs, f, px, prevX, endXmin)
      invariant r.Found? && BestBefore(xs, estimate, fitted, big, f, px, r.best)
    {
      ghost var head := px;
      px, m := NextCutoff(xs, px, m, endXmin, prevX, f);
      r := TryCutoff(xs, px, m, estimate, fitted, r.best, big, f, head);
      if r.Error? { return; }
      prevX := xs[px];
      px, m := px + 1, m + 1;
    }
    AtEnd(xs, f, px, prevX, endXmin);
  }

  method Search(xs: seq<real>, alphaMethod: AlphaMethod, estimate: Estimator, fitted: Model, big: real)
    returns (r: SearchResult)
    requires Sorted(xs)
    ensures if ValidOptions(|xs|, alphaMethod) then Searched(xs, estimate, fitted, big, r) else r == Error(PLFIT_EINVAL)
  {
    if !ValidOptions(|xs|, alphaMethod) { return Error(PLFIT_EINVAL); }
    r := ScanCutoffs(xs, estimate, fitted, big);
  }

  /** Which arguments are refused. */
  lemma OptionsExact(n: nat, alphaMethod: AlphaMethod)
    ensures !ValidOptions(n, alphaMethod) <==>
            n == 0 || (alphaMethod.LinearScan?
                       && (alphaMethod.min <= 1.0 || alphaMethod.max < alphaMethod.min || alphaMethod.step <= 0.0))
  {}

  /** The state between two rounds of the outer loop: the element before px is the block start that was
      evaluated last, and only the last round may overshoot the end. */
  ghost predicate AtHead(xs: seq<real>, f: nat, px: nat, prevX: real, endXmin: nat) {
    && f == First(xs) <= px <= |xs| && endXmin == (if f < |xs| then EndXmin(xs, f) else |xs|)
    && (px == f ==> prevX == 0.0)
    && (px > f ==> prevX == xs[px - 1] && IsBlockStart(xs, px - 1))
    && (px > endXmin ==> px == Limit(xs) == endXmin + 1)
  }

  lemma NothingTried(xs: seq<real>, estimate: Estimator, fitted: Model, big: real, endXmin: nat)
    requires endXmin == if First(xs) < |xs| then EndXmin(xs, First(xs)) else |xs|
    ensures BestBefore(xs, estimate, fitted, big, First(xs), First(xs), StartDiscrete(big))
    ensures AtHead(xs, First(xs), First(xs), 0.0, endXmin)
  {}

  lemma AfterSkip(xs: seq<real>, f: nat, head: nat, px: nat, prevX: real, endXmin: nat)
    requires AtHead(xs, f, head, prevX, endXmin) && head < endXmin && head <= px <= endXmin <= |xs|
    requires forall j :: head <= j < px ==> xs[j] == prevX
    requires px == endXmin || xs[px] != prevX
    ensures f <= px < |xs| && IsBlockStart(xs, px) && px < Limit(xs)
    ensures StartsIn(xs, f, px) == StartsIn(xs, f, head) && StartsIn(xs, f, px + 1) == StartsIn(xs, f, px) + [px]
    ensures AtHead(xs, f, px + 1, xs[px], endXmin)
  {
    FirstIsStart(xs);
    EndXminBounds(xs);
    hide EndXmin, StartsIn;
    assert IsBlockStart(xs, px);
    if px > head { NoStarts(xs, head, px); }
    SkipStarts(xs, f, head, px);
  }

  lemma SkipStarts(xs: seq<real>, f: nat, head: nat, px: nat)
    requires f <= head <= px < |xs| && IsBlockStart(xs, px)
    requires head < px ==> StartsIn(xs, head, px) == []
    ensures StartsIn(xs, f, px) == StartsIn(xs, f, head) && StartsIn(xs, f, px + 1) == StartsIn(xs, f, px) + [px]
  {
    if head < px { StartsSplit(xs, f, head, px); }
  }

  lemma EndXminBounds(xs: seq<real>)
    requires First(xs) < |xs|
    ensures var f, e := First(xs), EndXmin(xs, First(xs));
      f < e <= |xs| && (e == f + 1 || (e < |xs| && IsBlockStart(xs, e)))
  {
    EndXminExact(xs);
  }

  lemma AtEnd(xs: seq<real>, f: nat, px: nat, prevX: real, endXmin: nat)
    requires AtHead(xs, f, px, prevX, endXmin) && px >= endXmin
    ensures px == Limit(xs)
  {}

  lemma FailureAt(xs: seq<real>, estimate: Estimator, fitted: Model, big: real, f: nat, px: nat, best: Fit, code: int)
    requires f == First(xs) <= px < Limit(xs) && IsBlockStart(xs, px)
    requires BestBefore(xs, estimate, fitted, big, f, px, best)
    requires estimate(xs[px..]) == Failed(code)
    ensures FirstFailure(xs, estimate, Tried(xs), code)
  {
    StartsAround(xs, f, px, Limit(xs));
    hide StartsIn, First, Limit;
    var k := |StartsIn(xs, f, px)|;
    assert Tried(xs)[..k] == StartsIn(xs, f, px) && Tried(xs)[k] == px;
  }

  lemma {:induction false} FoldPrefix(best: Fit, fits: seq<Fit>, last: Fit, hi: nat)
    requires hi <= |fits|
    ensures Fold(best, fits + [last], 0, hi) == Fold(best, fits, 0, hi)
  {
    if hi > 0 { FoldPrefix(best, fits, last, hi - 1); }
  }

  lemma OneMore(xs: seq<real>, estimate: Estimator, fitted: Model, tried: seq<nat>, px: nat, alpha: real, d: real,
                start: Fit)
    requires Estimable(xs, estimate, tried) && px < |xs| && estimate(xs[px..]) == Estimated(alpha)
    requires d == KsDistance(xs[px..], fitted, alpha, xs[px])
    ensures Estimable(xs, estimate, tried + [px])
    ensures Fold(start, FitsAt(xs, estimate, fitted, tried + [px]), 0, |tried + [px]|)
      == Better(Fold(start, FitsAt(xs, estimate, fitted, tried), 0, |tried|), Fit(d, alpha, xs[px], |xs| - px))
  {
    var fits := FitsAt(xs, estimate, fitted, tried);
    assert FitsAt(xs, estimate, fitted, tried + [px]) == fits + [FitAt(xs, estimate, fitted, px)];
    FoldPrefix(start, fits, FitAt(xs, estimate, fitted, px), |tried|);
  }

  /** The search returns the first best of the tried cutoffs, with the number of samples at or above it,
      or its start record when none of them beats it. */
  lemma BestIsTail(xs: seq<real>, estimate: Estimator, fitted: Model, big: real, best: Fit)
    requires Sorted(xs) && Searched(xs, estimate, fitted, big, Found(best))
    ensures Estimable(xs, estimate, Tried(xs))
    ensures var fits := FitsAt(xs, estimate, fitted, Tried(xs));
      && (best == StartDiscrete(big) ==> forall k :: 0 <= k < |fits| ==> big <= fits[k].d)
      && (best != StartDiscrete(big) ==> best.d < big && best.xmin >= 1.0 && best.n == NumAtLeast(xs, best.xmin))
      && (best != StartDiscrete(big) ==>
            0 < best.n <= |xs|
            && (var tail := xs[|xs| - best.n..];
                best.xmin == tail[0] && estimate(tail) == Estimated(best.alpha)
                && best.d == KsDistance(tail, fitted, best.alpha, best.xmin)))
      && (best != StartDiscrete(big) ==> exists k :: FirstMinimal(fits, k) && best == fits[k])
  {
    hide Sorted, Tried, NumAtLeast;
    BestIsTried(xs, estimate, fitted, big, best);
    hide Searched, FitsAt;
    var fits := FitsAt(xs, estimate, fitted, Tried(xs));
    if best != StartDiscrete(big) {
      var k :| FirstMinimal(fits, k) && best == fits[k];
      TriedTail(xs, Tried(xs)[k]);
    }
  }

  lemma BestIsTried(xs: seq<real>, estimate: Estimator, fitted: Model, big: real, best: Fit)
    requires Searched(xs, estimate, fitted, big, Found(best))
    ensures Estimable(xs, estimate, Tried(xs))
    ensures var tried, fits := Tried(xs), FitsAt(xs, estimate, fitted, Tried(xs));
      && |fits| == |tried|
      && (best == StartDiscrete(big) ==> forall k :: 0 <= k < |fits| ==> big <= fits[k].d)
      && (best != StartDiscrete(big) ==> best.d < big && exists k :: FirstMinimal(fits, k) && best == fits[k])
      && (forall k :: 0 <= k < |fits| ==>
            tried[k] < |xs| && fits[k].xmin == xs[tried[k]] && fits[k].n == |xs| - tried[k])
  {
    var tried := Tried(xs);
    assert tried == StartsIn(xs, First(xs), Limit(xs));
    assert Estimable(xs, estimate, tried);
    var fits := FitsAt(xs, estimate, fitted, tried);
    assert best == Fold(StartDiscrete(big), fits, 0, |tried|);
    hide First, StartsIn, Limit, Fold, KsDistance, Tried, Searched;
    FitFields(xs, estimate, fitted, tried);
    hide FitsAt, Estimable;
    FoldIsFirstMinimum(StartDiscrete(big), fits);
  }

  lemma FitFields(xs: seq<real>, estimate: Estimator, fitted: Model, tried: seq<nat>)
    requires Estimable(xs, estimate, tried)
    ensures var fits := FitsAt(xs, estimate, fitted, tried);
      && |fits| == |tried|
      && (forall k :: 0 <= k < |fits| ==>
            tried[k] < |xs| && fits[k].xmin == xs[tried[k]] && fits[k].n == |xs| - tried[k])
  {
    hide KsDistance;
  }

  lemma TriedTail(xs: seq<real>, j: nat)
    requires Sorted(xs) && j in Tried(xs)
    ensures j < |xs| && xs[j] >= 1.0 && |xs| - j == NumAtLeast(xs, xs[j])
  {
    TriedExact(xs, j);
    TailIsCount(xs, j);
    assert xs[First(xs)] <= xs[j];
  }
}
