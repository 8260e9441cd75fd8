/** Golden section search, src/gss.c. The bracket is oriented: its ends may swap sides. */
module GoldenSection {
  import opened Interpolation

  const PLFIT_SUCCESS := 0
  const PLFIT_FAILURE := 1

  /** The literal constant of the source, a rounded 2 - phi. */
  const RESPHI: real := 0.3819660112501051

  datatype OnError = Stop | Warn

  /** x, f(x), best point, best value, left end, right end, iteration; non-zero cancels. */
  type ProgressCallback = (real, real, real, real, real, real, nat) -> int

  // ----- the geometry -----

  /** The two places the interior point can have: the golden fraction of the way from a to b, or the
      fraction it has after the bracket was turned round. */
  predicate Golden(a: real, b: real, c: real) {
    c - a == RESPHI * (b - a) || (2.0 - RESPHI) * (c - a) == (1.0 - RESPHI) * (b - a)
  }

  function SecondPoint(b: real, c: real): real {
    c + RESPHI * (b - c)
  }

  /** Whichever side is dropped, the new triple is golden again, and the width shrinks by a factor
      between 0.618033 and 0.618034 in that single step. */
  lemma GoldenStep(a: real, b: real, c: real)
    requires Golden(a, b, c) && a != b
    ensures var d := SecondPoint(b, c);
      && Between(a, c, b) && Between(c, d, b)
      && Golden(d, a, c) && Golden(c, b, d)
      && 0.618033 * Abs(b - a) <= Abs(a - d) <= 0.618034 * Abs(b - a)
      && 0.618033 * Abs(b - a) <= Abs(b - c) <= 0.618034 * Abs(b - a)
  {}

  /** The factor guaranteed after k steps. */
  function Shrink(k: nat): real {
    if k == 0 then 1.0 else 0.618034 * Shrink(k - 1)
  }

  lemma {:induction false} ShrinkHarmonic(k: nat)
    ensures 0.0 < Shrink(k) && Shrink(k) * (1.0 + 0.6 * k as real) <= 1.0
  {
    if k > 0 { ShrinkHarmonic(k - 1); }
  }

  lemma {:induction false} ShrinkDecreases(j: nat, k: nat)
    requires j <= k
    ensures Shrink(k) <= Shrink(j)
  {
    if j < k {
      ShrinkDecreases(j, k - 1);
      ShrinkHarmonic(k - 1);
    }
  }

  /** Enough steps bring any width below any positive epsilon. */
  lemma ShrinkBelow(w: real, eps: real) returns (n: nat)
    requires 0.0 <= w && 0.0 < eps
    ensures Contracted(w, n) <= eps
  {
    n := (w / eps * 2.0).Floor + 1;
    ShrinkHarmonic(n);
    var s, h := Shrink(n), 1.0 + 0.6 * n as real;
    assert (w / eps) * eps == w;
    assert w <= eps * h by { var p := MulNonNeg(h - w / eps, eps); }
    var q := MulNonNeg(eps * h - w, s);
    var r := MulNonNeg(1.0 - s * h, eps);
    assert (eps * h) * s == eps * (s * h);
  }

  /** The width guaranteed after k steps from width w. */
  function Contracted(w: real, k: nat): real {
    w * Shrink(k)
  }

  lemma ContractedStep(w: real, k: nat, before: real, after: real)
    requires before <= Contracted(w, k) && after <= 0.618034 * before
    ensures after <= Contracted(w, k + 1)
  {
    assert Contracted(w, k + 1) == 0.618034 * Contracted(w, k);
  }

  /** While the width is above epsilon, the bound on the number of steps is not used up. */
  lemma ContractedAbove(w: real, k: nat, bound: nat, eps: real)
    requires 0.0 <= w && Contracted(w, bound) <= eps < Contracted(w, k)
    ensures k < bound
  {
    if bound <= k {
      ShrinkDecreases(bound, k);
      var p := MulNonNeg(w, Shrink(bound) - Shrink(k));
    }
  }

  // ----- unimodal functions -----

  ghost predicate StrictlyUnimodal(f: real -> real, lo: real, hi: real, m: real) {
    && lo <= m <= hi
    && (forall x, y :: lo <= x < y <= m ==> f(y) < f(x))
    && (forall x, y :: m <= x < y <= hi ==> f(x) < f(y))
  }

  /** An interior point no higher than either end locks the minimiser in. */
  lemma MinimiserInBracket(f: real -> real, lo: real, hi: real, m: real, a: real, b: real, c: real)
    requires StrictlyUnimodal(f, lo, hi, m)
    requires lo <= a <= hi && lo <= b <= hi && Between(a, c, b) && f(c) <= f(a) && f(c) <= f(b)
    ensures Min2(a, b) <= m <= Max2(a, b)
  {
    var l, h := Min2(a, b), Max2(a, b);
    if m < l { Slopes(f, lo, hi, m, l, c); }
    if h < m { Slopes(f, lo, hi, m, c, h); }
  }

  lemma Slopes(f: real -> real, lo: real, hi: real, m: real, x: real, y: real)
    requires StrictlyUnimodal(f, lo, hi, m) && lo <= x < y <= hi
    ensures m <= x ==> f(x) < f(y)
    ensures y <= m ==> f(y) < f(x)
  {}

  // ----- what the search does, as a function of the objective -----

  /** The oriented bracket and its interior point. */
  datatype Bracket = Bracket(a: real, b: real, c: real) {
    function Width(): real { Abs(a - b) }
    function Probe(): real { SecondPoint(b, c) }
  }

  function Turn(f: real -> real, t: Bracket): Bracket {
    if f(t.c) <= f(t.Probe()) then Bracket(t.Probe(), t.a, t.c) else Bracket(t.c, t.b, t.Probe())
  }

  /** The bracket after k turns of the loop, if it runs that far. */
  function After(f: real -> real, lo: real, hi: real, k: nat): Bracket {
    if k == 0 then Bracket(lo, hi, lo + RESPHI * (hi - lo)) else Turn(f, After(f, lo, hi, k - 1))
  }

  /** A value that the source does not call U-shaped: not below both original ends. */
  predicate High(f: real -> real, lo: real, hi: real, x: real) {
    f(x) >= f(lo) || f(x) >= f(hi)
  }

  /** Turn k happens, and its probe is too high. */
  predicate FailsAt(f: real -> real, lo: real, hi: real, epsilon: real, k: nat) {
    epsilon < After(f, lo, hi, k).Width() && High(f, lo, hi, After(f, lo, hi, k).Probe())
  }

  ghost predicate Fails(f: real -> real, lo: real, hi: real, epsilon: real) {
    High(f, lo, hi, After(f, lo, hi, 0).c) || exists k: nat :: FailsAt(f, lo, hi, epsilon, k)
  }

  /** Golden or collapsed, inside the original interval. */
  predicate Proper(lo: real, hi: real, t: Bracket) {
    lo <= t.a <= hi && lo <= t.b <= hi && if t.a == t.b then t.c == t.a else Golden(t.a, t.b, t.c)
  }

  lemma TurnProper(f: real -> real, lo: real, hi: real, t: Bracket)
    requires Proper(lo, hi, t)
    ensures Proper(lo, hi, Turn(f, t)) && Turn(f, t).Width() <= t.Width()
    ensures t.a != t.b ==> Between(t.a, t.c, t.b) && Between(t.c, t.Probe(), t.b)
  {
    if t.a != t.b {
      GoldenStep(t.a, t.b, t.c);
      hide Golden, SecondPoint;
    }
  }

  /** Every bracket is golden, and no wider than the one before. */
  lemma {:induction false} AfterProper(f: real -> real, lo: real, hi: real, k: nat)
    requires lo <= hi
    ensures Proper(lo, hi, After(f, lo, hi, k))
    ensures k > 0 ==> After(f, lo, hi, k).Width() <= After(f, lo, hi, k - 1).Width()
  {
    if k > 0 {
      hide Proper, Turn;
      AfterProper(f, lo, hi, k - 1);
      TurnProper(f, lo, hi, After(f, lo, hi, k - 1));
    }
  }

  lemma AfterStart(f: real -> real, lo: real, hi: real)
    ensures After(f, lo, hi, 0) == Bracket(lo, hi, lo + RESPHI * (hi - lo))
  {}

  lemma AfterNext(f: real -> real, lo: real, hi: real, k: nat)
    ensures After(f, lo, hi, k + 1) == Turn(f, After(f, lo, hi, k))
  {}

  lemma {:induction false} WidthsShrink(f: real -> real, lo: real, hi: real, j: nat, k: nat)
    requires lo <= hi && j <= k
    ensures After(f, lo, hi, k).Width() <= After(f, lo, hi, j).Width()
  {
    if j < k {
      WidthsShrink(f, lo, hi, j, k - 1);
      AfterProper(f, lo, hi, k);
    }
  }

  lemma FirstFails(f: real -> real, lo: real, hi: real, epsilon: real)
    requires High(f, lo, hi, After(f, lo, hi, 0).c)
    ensures Fails(f, lo, hi, epsilon)
  {}

  lemma LaterFails(f: real -> real, lo: real, hi: real, epsilon: real, k: nat)
    requires FailsAt(f, lo, hi, epsilon, k)
    ensures Fails(f, lo, hi, epsilon)
  {}

  /** One of the first k turns has a probe that is too high. */
  ghost predicate HighBefore(f: real -> real, lo: real, hi: real, k: nat) {
    exists j: nat :: j < k && High(f, lo, hi, After(f, lo, hi, j).Probe())
  }

  lemma HighNext(f: real -> real, lo: real, hi: real, k: nat)
    ensures !HighBefore(f, lo, hi, 0)
    ensures HighBefore(f, lo, hi, k + 1) <==> HighBefore(f, lo, hi, k) || High(f, lo, hi, After(f, lo, hi, k).Probe())
  {}

  /** The first k turns are all made: the bracket is wider than epsilon before each of them. */
  ghost predicate WideBefore(f: real -> real, lo: real, hi: real, epsilon: real, k: nat) {
    forall j: nat :: j < k ==> epsilon < After(f, lo, hi, j).Width()
  }

  lemma WideNext(f: real -> real, lo: real, hi: real, epsilon: real, k: nat)
    ensures WideBefore(f, lo, hi, epsilon, 0)
    ensures WideBefore(f, lo, hi, epsilon, k) && epsilon < After(f, lo, hi, k).Width() ==>
              WideBefore(f, lo, hi, epsilon, k + 1)
  {}

  /** A search that is done after k turns fails exactly when its first probe or that of one of them is high. */
  lemma FailsWithin(f: real -> real, lo: real, hi: real, epsilon: real, k: nat)
    requires lo <= hi && After(f, lo, hi, k).Width() <= epsilon && WideBefore(f, lo, hi, epsilon, k)
    ensures Fails(f, lo, hi, epsilon) <==> High(f, lo, hi, After(f, lo, hi, 0).c) || HighBefore(f, lo, hi, k)
  {
    hide After, High;
    forall j: nat | k <= j ensures !FailsAt(f, lo, hi, epsilon, j) { WidthsShrink(f, lo, hi, k, j); }
    if j: nat :| j < k && High(f, lo, hi, After(f, lo, hi, j).Probe()) { assert FailsAt(f, lo, hi, epsilon, j); }
  }

  /** What the first k turns evaluate. */
  function Probes(f: real -> real, lo: real, hi: real, k: nat): seq<real> {
    if k == 0 then [] else Probes(f, lo, hi, k - 1) + [After(f, lo, hi, k - 1).Probe()]
  }

  // ----- the search -----

  /** A callback that never cancels. */
  ghost predicate Silent(progress: ProgressCallback) {
    forall x, fx, min, fmin, left, right, k :: progress(x, fx, min, fmin, left, right, k) == 0
  }

  /** The macro EVALUATE: evaluate, keep the best, report. */
  method Evaluate(x: real, f: real -> real, progress: ProgressCallback, a: real, b: real, k: nat,
                  min0: real, fmin0: real)
    returns (fx: real, min: real, fmin: real, cancelled: bool)
    ensures fx == f(x)
    ensures if fmin0 > fx then min == x && fmin == fx else min == min0 && fmin == fmin0
    ensures cancelled <==> progress(x, fx, min, fmin, Min2(a, b), Max2(a, b), k) != 0
    ensures Silent(progress) ==> !cancelled
  {
    fx := f(x);
    min, fmin := min0, fmin0;
    if fmin > fx { min, fmin := x, fx; }
    var retval := progress(x, fx, min, fmin, if a < b then a else b, if a < b then b else a, k);
    cancelled := retval != 0;
  }

  /** min and fmin are the best of everything evaluated. */
  ghost predicate BestOf(f: real -> real, seen: seq<real>, min: real, fmin: real) {
    min in seen && fmin == f(min) && forall i :: 0 <= i < |seen| ==> fmin <= f(seen[i])
  }

  lemma NoContraction(w: real)
    ensures Contracted(w, 0) == w
  {}

  /** The interior probes, those after the two ends, are strictly lower than both ends. */
  ghost predicate LowProbes(f: real -> real, seen: seq<real>, fa: real, fb: real) {
    forall i :: 2 <= i < |seen| ==> f(seen[i]) < fa && f(seen[i]) < fb
  }

  /** The newest probe is not. */
  ghost predicate HighProbe(f: real -> real, seen: seq<real>, fa: real, fb: real) {
    |seen| > 2 && (f(seen[|seen|-1]) >= fa || f(seen[|seen|-1]) >= fb)
  }

  lemma {:induction false} ProbesLow(f: real -> real, seen: seq<real>, lo: real, hi: real, k: nat)
    requires |seen| > 2 && LowProbes(f, seen, f(lo), f(hi)) && !HighBefore(f, lo, hi, k)
    ensures LowProbes(f, seen + Probes(f, lo, hi, k), f(lo), f(hi))
  {
    hide After;
    if k > 0 {
      HighNext(f, lo, hi, k - 1);
      ProbesLow(f, seen, lo, hi, k - 1);
      assert seen + Probes(f, lo, hi, k)
          == (seen + Probes(f, lo, hi, k - 1)) + [After(f, lo, hi, k - 1).Probe()];
    } else {
      assert seen + Probes(f, lo, hi, 0) == seen;
    }
  }

  lemma ProbesNext(f: real -> real, seen: seq<real>, lo: real, hi: real, k: nat)
    ensures seen + Probes(f, lo, hi, 0) == seen
    ensures seen + Probes(f, lo, hi, k + 1) == (seen + Probes(f, lo, hi, k)) + [After(f, lo, hi, k).Probe()]
  {
    hide After;
  }

  lemma FailsHere(f: real -> real, lo: real, hi: real, epsilon: real, k: nat)
    requires epsilon < After(f, lo, hi, k).Width() && High(f, lo, hi, After(f, lo, hi, k).Probe())
    ensures FailsAt(f, lo, hi, epsilon, k)
  {}

  lemma LastProbe(f: real -> real, seen: seq<real>, lo: real, hi: real, k: nat)
    requires |seen| > 2 && High(f, lo, hi, After(f, lo, hi, k).Probe())
    ensures HighProbe(f, seen + Probes(f, lo, hi, k + 1), f(lo), f(hi))
  {
    hide After;
    var d := After(f, lo, hi, k).Probe();
    assert seen + Probes(f, lo, hi, k + 1) == (seen + Probes(f, lo, hi, k)) + [d];
  }

  lemma FirstEvaluated(f: real -> real, x: real)
    ensures BestOf(f, [x], x, f(x))
  {
    assert [x][0] == x;
  }

  lemma BestOfMore(f: real -> real, seen: seq<real>, min: real, fmin: real, x: real)
    requires BestOf(f, seen, min, fmin)
    ensures if fmin > f(x) then BestOf(f, seen + [x], x, f(x)) else BestOf(f, seen + [x], min, fmin)
  {
    var more := seen + [x];
    assert more[|seen|] == x;
    var i :| 0 <= i < |seen| && seen[i] == min;
    assert more[i] == min;
  }

  /** The bracketing triple: an interior golden point that is the best point so far. */
  ghost predicate Triple(f: real -> real, a: real, b: real, c: real, fc: real, min: real, fmin: real) {
    a != b && Golden(a, b, c) && fc == f(c) && fc <= f(a) && fc <= f(b) && min == c && fmin == fc
  }

  datatype Exit = Cancelled | NotUShaped | Narrow

  /** The ends of the oriented bracket, left to right. */
  ghost predicate Within(lo: real, a: real, b: real, hi: real) {
    lo <= a <= hi && lo <= b <= hi
  }

  lemma WithinFacts(lo: real, a: real, b: real, hi: real)
    requires lo <= a <= b <= hi
    ensures Within(lo, a, b, hi)
  {}

  lemma NextBracket(lo: real, hi: real, a: real, b: real, c: real, d: real, w: real, k: nat)
    requires Within(lo, a, b, hi) && a != b && Golden(a, b, c) && d == SecondPoint(b, c)
    requires Abs(a - b) <= Contracted(w, k)
    ensures lo <= d <= hi && Golden(d, a, c) && Golden(c, b, d)
    ensures Within(lo, d, a, hi) && Abs(d - a) <= Contracted(w, k + 1)
    ensures Within(lo, c, b, hi) && Abs(c - b) <= Contracted(w, k + 1)
  {
    GoldenStep(a, b, c);
    ContractedStep(w, k, Abs(b - a), Abs(a - d));
    ContractedStep(w, k, Abs(b - a), Abs(b - c));
  }

  /** The loop: drop one side of the bracket a turn until it is no wider than epsilon. */
  method NarrowDown(a0: real, b0: real, c0: real, fa: real, fb: real, fc0: real, min0: real, fmin0: real,
                    f: real -> real, progress: ProgressCallback, epsilon: real, onError: OnError, warning0: bool,
                    ghost seen0: seq<real>, ghost w: real)
    returns (a: real, b: real, c: real, min: real, fmin: real, k: nat, exit: Exit, warning: bool, ghost seen: seq<real>)
    requires 0.0 < epsilon && 0.0 <= w && a0 <= b0 && Abs(a0 - b0) <= Contracted(w, 0)
    requires fc0 == f(c0) && (a0 != b0 ==> Golden(a0, b0, c0)) && BestOf(f, seen0, min0, fmin0)
    requires forall i :: 0 <= i < |seen0| ==> a0 <= seen0[i] <= b0
    requires onError == Stop ==> Triple(f, a0, b0, c0, fc0, min0, fmin0) && !warning0
    requires onError == Stop ==> |seen0| > 2 && LowProbes(f, seen0, fa, fb)
    requires fa == f(a0) && fb == f(b0) && c0 == After(f, a0, b0, 0).c
    ensures Silent(progress) ==> exit != Cancelled
    ensures onError == Stop && exit == NotUShaped ==> k > 0 && FailsAt(f, a0, b0, epsilon, k - 1)
    ensures exit == Narrow ==> Bracket(a, b, c) == After(f, a0, b0, k) && WideBefore(f, a0, b0, epsilon, k)
    ensures exit == Narrow ==>
              if onError == Stop then !HighBefore(f, a0, b0, k)
              else warning == (warning0 || HighBefore(f, a0, b0, k))
    ensures seen == seen0 + Probes(f, a0, b0, k)
    ensures onError == Stop ==> |seen| > 2
    ensures onError == Stop && exit == NotUShaped ==> HighProbe(f, seen, fa, fb)
    ensures onError == Stop && exit == Narrow ==> LowProbes(f, seen, fa, fb)
    ensures Within(a0, a, b, b0) && BestOf(f, seen, min, fmin)
    ensures forall i :: 0 <= i < |seen| ==> a0 <= seen[i] <= b0
    ensures exit == Narrow ==> Abs(a - b) <= epsilon && Abs(a - b) <= Contracted(w, k)
    ensures exit == Narrow ==> (k > 0 <==> epsilon < Abs(a0 - b0))
    ensures exit == NotUShaped ==> onError == Stop
    ensures warning && onError == Stop ==> false
    ensures onError == Stop && exit == Narrow ==> Triple(f, a, b, c, f(c), min, fmin)
  {
    hide Contracted, BestOf, Golden, Triple, Within, After, SecondPoint, LowProbes, HighProbe, Silent, Min2, Max2,
         RESPHI, HighBefore, WideBefore, Probes, FailsAt;
    AfterStart(f, a0, b0);
    ProbesNext(f, seen0, a0, b0, 0);
    HighNext(f, a0, b0, 0);
    WideNext(f, a0, b0, epsilon, 0);
    WithinFacts(a0, a0, b0, b0);
    a, b, c, min, fmin, k, warning, seen := a0, b0, c0, min0, fmin0, 0, warning0, seen0;
    var fc := fc0;
    ghost var bound := ShrinkBelow(w, epsilon);
    while Abs(a - b) > epsilon
      invariant Within(a0, a, b, b0) && fc == f(c) && (a != b ==> Golden(a, b, c))
      invariant Abs(a - b) <= Contracted(w, k)
      invariant BestOf(f, seen, min, fmin)
      invariant forall i :: 0 <= i < |seen| ==> a0 <= seen[i] <= b0
      invariant onError == Stop ==> Triple(f, a, b, c, fc, min, fmin) && !warning
      invariant if k > 0 then epsilon < Abs(a0 - b0) else a == a0 && b == b0
      invariant Bracket(a, b, c) == After(f, a0, b0, k)
      invariant WideBefore(f, a0, b0, epsilon, k) && seen == seen0 + Probes(f, a0, b0, k)
      invariant if onError == Stop then !HighBefore(f, a0, b0, k)
                else warning == (warning0 || HighBefore(f, a0, b0, k))
      decreases bound as int - k
    {
      ContractedAbove(w, k, bound, epsilon);
      AfterNext(f, a0, b0, k);
      HighNext(f, a0, b0, k);
      WideNext(f, a0, b0, epsilon, k);
      ProbesNext(f, seen0, a0, b0, k);
      k := k + 1;
      var d := SecondPoint(b, c);
      NextBracket(a0, b0, a, b, c, d, w, k - 1);
      if onError == Stop { TripleStep(f, a, b, c, fc, min, fmin, d); }
      var fd, stop;
      BestOfMore(f, seen, min, fmin, d);
      fd, min, fmin, stop := Evaluate(d, f, progress, a, b, k, min, fmin);
      seen := seen + [d];
      if stop { exit := Cancelled; return; }
      if fd >= fa || fd >= fb {
        if onError == Stop {
          LastProbe(f, seen0, a0, b0, k - 1);
          FailsHere(f, a0, b0, epsilon, k - 1);
          exit := NotUShaped;
          return;
        }
        warning := true;
      }
      if fc <= fd {
        b := a;
        a := d;
      } else {
        a := c;
        c := d;
        fc := fd;
      }
    }
    if onError == Stop { ProbesLow(f, seen0, a0, b0, k); }
    exit := Narrow;
  }

  /** The evaluations before the loop: both ends and the golden point. */
  method FirstThree(a: real, b: real, f: real -> real, progress: ProgressCallback)
    returns (fa: real, fb: real, fc: real, c: real, min: real, fmin: real, stop: bool, ghost seen: seq<real>)
    requires a <= b
    ensures BestOf(f, seen, min, fmin) && forall i :: 0 <= i < |seen| ==> a <= seen[i] <= b
    ensures !stop ==> c == a + RESPHI * (b - a) && fa == f(a) && fb == f(b) && fc == f(c)
    ensures !stop && fc < fa && fc < fb ==> min == c && fmin == fc
    ensures !stop ==> seen == [a, b, c]
    ensures Silent(progress) ==> !stop
  {
    hide BestOf;
    FirstEvaluated(f, a);
    min := a;
    fmin := f(a);
    c := a + RESPHI * (b - a);
    fb, fc := 0.0, 0.0;
    seen := [a];
    fa, min, fmin, stop := Evaluate(a, f, progress, a, b, 0, min, fmin);
    if stop { return; }
    BestOfMore(f, seen, min, fmin, b);
    fb, min, fmin, stop := Evaluate(b, f, progress, a, b, 0, min, fmin);
    seen := seen + [b];
    if stop { return; }
    BestOfMore(f, seen, min, fmin, c);
    fc, min, fmin, stop := Evaluate(c, f, progress, a, b, 0, min, fmin);
    seen := seen + [c];
  }

  /** The final bracket holds the minimiser of any strictly unimodal function. */
  ghost predicate Locates(f: real -> real, lo: real, hi: real, left: real, right: real, min: real, epsilon: real) {
    forall m :: StrictlyUnimodal(f, lo, hi, m) ==> left <= m <= right && Abs(min - m) <= epsilon
  }

  lemma LocatesHere(f: real -> real, lo: real, hi: real, left: real, right: real, min: real, epsilon: real)
    requires forall m :: StrictlyUnimodal(f, lo, hi, m) ==> left <= m <= right
    requires left <= min <= right && right - left <= epsilon
    ensures Locates(f, lo, hi, left, right, min, epsilon)
  {
    hide StrictlyUnimodal;
  }

  /** left and right are the ends of the first bracket that is no wider than epsilon, reached after the given
      number of turns. */
  ghost predicate Ends(f: real -> real, lo: real, hi: real, epsilon: real, left: real, right: real, steps: nat) {
    var t := After(f, lo, hi, steps);
    && left == Min2(t.a, t.b) && right == Max2(t.a, t.b) && right - left <= epsilon
    && WideBefore(f, lo, hi, epsilon, steps)
  }

  lemma EndsHere(f: real -> real, lo: real, hi: real, epsilon: real, a: real, b: real, c: real, k: nat)
    requires Bracket(a, b, c) == After(f, lo, hi, k) && Abs(a - b) <= epsilon && WideBefore(f, lo, hi, epsilon, k)
    ensures Ends(f, lo, hi, epsilon, Min2(a, b), Max2(a, b), k)
  {
    hide After, WideBefore;
  }

  /** The loop and the last evaluation, in the middle of the final bracket. */
  method Finish(lo: real, hi: real, c0: real, fa: real, fb: real, fc0: real, min0: real, fmin0: real,
                f: real -> real, progress: ProgressCallback, epsilon: real, onError: OnError, warning0: bool,
                ghost seen0: seq<real>)
    returns (ret: int, min: real, fmin: real, warning: bool,
             ghost seen: seq<real>, ghost cancelled: bool, ghost left: real, ghost right: real, ghost steps: nat)
    requires 0.0 < epsilon && lo <= hi && fa == f(lo) && fb == f(hi) && fc0 == f(c0)
    requires c0 == After(f, lo, hi, 0).c && (lo != hi ==> Golden(lo, hi, c0)) && BestOf(f, seen0, min0, fmin0)
    requires forall i :: 0 <= i < |seen0| ==> lo <= seen0[i] <= hi
    requires onError == Stop ==> Triple(f, lo, hi, c0, fc0, min0, fmin0) && !warning0
    requires onError == Stop ==> |seen0| > 2 && LowProbes(f, seen0, fa, fb) && !High(f, lo, hi, c0)
    requires onError == Warn ==> (warning0 <==> High(f, lo, hi, c0))
    ensures ret == PLFIT_SUCCESS || (ret == PLFIT_FAILURE && onError == Stop)
    ensures warning ==> onError == Warn
    ensures BestOf(f, seen, min, fmin) && forall i :: 0 <= i < |seen| ==> lo <= seen[i] <= hi
    ensures Silent(progress) ==> !cancelled
    ensures cancelled ==> ret == PLFIT_SUCCESS
    ensures ret == PLFIT_FAILURE ==> Fails(f, lo, hi, epsilon) && HighProbe(f, seen, fa, fb)
    ensures onError == Stop && ret == PLFIT_SUCCESS && !cancelled ==>
              !Fails(f, lo, hi, epsilon) && |seen| > 3 && LowProbes(f, seen[..|seen|-1], fa, fb)
    ensures onError == Warn && !cancelled ==> (warning <==> Fails(f, lo, hi, epsilon))
    ensures ret == PLFIT_SUCCESS && !cancelled ==>
              Ends(f, lo, hi, epsilon, left, right, steps)
              && seen == seen0 + Probes(f, lo, hi, steps) + [(left + right) / 2.0]
    ensures ret == PLFIT_SUCCESS && !cancelled ==>
              lo <= left <= right <= hi && right - left <= epsilon && right - left <= Contracted(hi - lo, steps)
    ensures ret == PLFIT_SUCCESS && !cancelled ==> (steps > 0 <==> epsilon < hi - lo)
    ensures ret == PLFIT_SUCCESS && !cancelled && onError == Stop ==>
              left <= min <= right && Locates(f, lo, hi, left, right, min, epsilon)
  {
    hide Contracted, BestOf, StrictlyUnimodal, Golden, Triple, LowProbes, HighProbe, After, Fails, FailsAt, Silent,
         Locates, High, HighBefore, WideBefore, Probes, Ends;
    NoContraction(hi - lo);
    var a, b, c, k, exit;
    a, b, c, min, fmin, k, exit, warning, seen :=
      NarrowDown(lo, hi, c0, fa, fb, fc0, min0, fmin0, f, progress, epsilon, onError, warning0, seen0, hi - lo);
    steps, cancelled := k, false;
    left, right := Min2(a, b), Max2(a, b);
    if exit == Cancelled { return PLFIT_SUCCESS, min, fmin, warning, seen, true, left, right, steps; }
    if exit == NotUShaped {
      LaterFails(f, lo, hi, epsilon, k - 1);
      return PLFIT_FAILURE, min, fmin, warning, seen, cancelled, left, right, steps;
    }
    FailsWithin(f, lo, hi, epsilon, k);
    EndsHere(f, lo, hi, epsilon, a, b, c, k);
    if onError == Stop { TripleLocates(f, lo, hi, a, b, c, min, fmin); }
    c := (a + b) / 2.0;
    k := k + 1;
    BestOfMore(f, seen, min, fmin, c);
    var fc;
    fc, min, fmin, cancelled := Evaluate(c, f, progress, a, b, k, min, fmin);
    ghost var probed := seen;
    seen := seen + [c];
    assert seen[..|seen|-1] == probed;
    if onError == Stop { LocatesHere(f, lo, hi, left, right, min, epsilon); }
    return PLFIT_SUCCESS, min, fmin, warning, seen, cancelled, left, right, steps;
  }

  /** The whole search. Ghost results name what the C function does not report: the points evaluated,
      whether the callback cancelled, the final bracket and the number of completed steps. */
  method Gss(a0: real, b0: real, f: real -> real, progress: ProgressCallback, epsilon: real, onError: OnError)
    returns (ret: int, min: real, fmin: real, warning: bool,
             ghost seen: seq<real>, ghost cancelled: bool, ghost left: real, ghost right: real, ghost steps: nat)
    requires 0.0 < epsilon
    ensures ret == PLFIT_SUCCESS || (ret == PLFIT_FAILURE && onError == Stop)
    ensures warning ==> onError == Warn
    // the point returned is the best of all evaluated, inside the initial bracket
    ensures BestOf(f, seen, min, fmin)
    ensures forall i :: 0 <= i < |seen| ==> Min2(a0, b0) <= seen[i] <= Max2(a0, b0)
    // the search fails exactly when the objective makes it fail, unless the callback cancels it first
    ensures Silent(progress) ==> !cancelled
    ensures cancelled ==> ret == PLFIT_SUCCESS
    ensures ret == PLFIT_FAILURE ==> Fails(f, Min2(a0, b0), Max2(a0, b0), epsilon)
    ensures onError == Stop && ret == PLFIT_SUCCESS && !cancelled ==> !Fails(f, Min2(a0, b0), Max2(a0, b0), epsilon)
    // in warn mode the same sets the warning
    ensures onError == Warn && !cancelled ==> (warning <==> Fails(f, Min2(a0, b0), Max2(a0, b0), epsilon))
    // then the newest probe was not lower than both original ends; otherwise all were
    ensures onError == Stop && ret == PLFIT_FAILURE ==> HighProbe(f, seen, f(a0), f(b0))
    ensures onError == Stop && ret == PLFIT_SUCCESS && !cancelled ==>
              |seen| > 3 && LowProbes(f, seen[..|seen|-1], f(a0), f(b0))
    // what was evaluated, and the final bracket, in both modes
    ensures ret == PLFIT_SUCCESS && !cancelled ==>
      (var lo, hi := Min2(a0, b0), Max2(a0, b0);
       && Ends(f, lo, hi, epsilon, left, right, steps)
       && seen == [lo, hi, lo + RESPHI * (hi - lo)] + Probes(f, lo, hi, steps) + [(left + right) / 2.0])
    ensures ret == PLFIT_SUCCESS && !cancelled ==>
      && Min2(a0, b0) <= left <= right <= Max2(a0, b0)
      && right - left <= epsilon && right - left <= Contracted(Abs(b0 - a0), steps)
      && (steps > 0 <==> epsilon < Abs(b0 - a0))
    ensures ret == PLFIT_SUCCESS && !cancelled && onError == Stop ==> left <= min <= right
    ensures ret == PLFIT_SUCCESS && !cancelled && onError == Stop ==>
              Locates(f, Min2(a0, b0), Max2(a0, b0), left, right, min, epsilon)
  {
    hide Contracted, BestOf, StrictlyUnimodal, Golden, Triple, LowProbes, HighProbe, After, Fails, FailsAt, Silent,
         Locates, HighBefore, WideBefore, Ends, Probes;
    var a, b := a0, b0;
    warning, cancelled, steps := false, false, 0;
    if a > b { a, b := b, a; }
    AfterStart(f, a, b);
    left, right := a, b;
    var fa, fb, fc, c, stop;
    fa, fb, fc, c, min, fmin, stop, seen := FirstThree(a, b, f, progress);
    SwapEnds(f, seen, fa, fb);
    if stop { return PLFIT_SUCCESS, min, fmin, warning, seen, true, left, right, steps; }
    if fc >= fa || fc >= fb {
      if onError == Stop {
        FirstProbeHigh(f, a, b, c);
        FirstFails(f, a, b, epsilon);
        return PLFIT_FAILURE, min, fmin, warning, seen, cancelled, left, right, steps;
      }
      warning := true;
    }
    InitialTriple(f, a, b, c);
    if onError == Stop { FirstProbeLow(f, a, b, c); }
    ret, min, fmin, warning, seen, cancelled, left, right, steps :=
      Finish(a, b, c, fa, fb, fc, min, fmin, f, progress, epsilon, onError, warning, seen);
    SwapEnds(f, seen, fa, fb);
    if |seen| > 0 { SwapEnds(f, seen[..|seen|-1], fa, fb); }
  }

  /** The side that is dropped leaves the lower of the two interior points inside. */
  lemma TripleStep(f: real -> real, a: real, b: real, c: real, fc: real, min: real, fmin: real, d: real)
    requires Triple(f, a, b, c, fc, min, fmin) && d == SecondPoint(b, c)
    ensures fmin == fc && min == c
    ensures if fc <= f(d) then Triple(f, d, a, c, fc, c, fc) else Triple(f, c, b, d, f(d), d, f(d))
  {
    GoldenStep(a, b, c);
  }

  lemma SwapEnds(f: real -> real, seen: seq<real>, fa: real, fb: real)
    ensures LowProbes(f, seen, fa, fb) <==> LowProbes(f, seen, fb, fa)
    ensures HighProbe(f, seen, fa, fb) <==> HighProbe(f, seen, fb, fa)
  {}

  lemma FirstProbeHigh(f: real -> real, a: real, b: real, c: real)
    requires f(c) >= f(a) || f(c) >= f(b)
    ensures HighProbe(f, [a, b, c], f(a), f(b)) && HighProbe(f, [a, b, c], f(b), f(a))
  {}

  lemma FirstProbeLow(f: real -> real, a: real, b: real, c: real)
    requires f(c) < f(a) && f(c) < f(b)
    ensures LowProbes(f, [a, b, c], f(a), f(b)) && LowProbes(f, [a, b, c], f(b), f(a))
  {}

  lemma InitialTriple(f: real -> real, a: real, b: real, c: real)
    requires a <= b && c == a + RESPHI * (b - a)
    ensures Golden(a, b, c)
    ensures f(c) < f(a) && f(c) < f(b) ==> Triple(f, a, b, c, f(c), c, f(c))
  {}

  lemma TripleLocates(f: real -> real, lo: real, hi: real, a: real, b: real, c: real, min: real, fmin: real)
    requires Triple(f, a, b, c, f(c), min, fmin) && Within(lo, a, b, hi)
    ensures Min2(a, b) <= min <= Max2(a, b)
    ensures forall m :: StrictlyUnimodal(f, lo, hi, m) ==> Min2(a, b) <= m <= Max2(a, b)
  {
    GoldenStep(a, b, c);
    forall m | StrictlyUnimodal(f, lo, hi, m) ensures Min2(a, b) <= m <= Max2(a, b) {
      MinimiserInBracket(f, lo, hi, m, a, b, c);
    }
  }

  /** A V with a steep right arm: strictly unimodal, low at the first golden point ... */
  function SteepV(x: real): real {
    if x <= RESPHI then RESPHI - x else 2.0 * (x - RESPHI)
  }

  /** ... and yet rejected: the next probe is not below the left end, so a failure does not show that
      the function is not U-shaped. */
  lemma UShapedButRejected()
    ensures StrictlyUnimodal(SteepV, 0.0, 1.0, RESPHI)
    ensures SteepV(RESPHI) < SteepV(0.0) && SteepV(RESPHI) < SteepV(1.0)
    ensures SteepV(SecondPoint(1.0, RESPHI)) >= SteepV(0.0)
  {}
}
