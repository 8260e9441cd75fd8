/** lbfgs() of src/lbfgs.c: parameter checks, the iteration over line search, convergence tests,
    correction update and new direction. */
module LbfgsDriver {
  import opened Interpolation
  import opened LbfgsCodes
  import opened Vectors
  import opened Kernels
  import opened Padding
  import opened QuasiNewton
  import opened TwoLoop
  import opened Objectives
  import Backtracking
  import MoreThuente
  import OwlQn

  /** The checks at the head of lbfgs(), in order; 0 when all pass. */
  function CheckParams(n: int, p: Params): int {
    if n <= 0 then LBFGSERR_INVALID_N
    else if p.epsilon < 0.0 then LBFGSERR_INVALID_EPSILON
    else if p.past < 0 then LBFGSERR_INVALID_TESTPERIOD
    else if p.delta < 0.0 then LBFGSERR_INVALID_DELTA
    else if p.minStep < 0.0 then LBFGSERR_INVALID_MINSTEP
    else if p.maxStep < p.minStep then LBFGSERR_INVALID_MAXSTEP
    else if p.ftol < 0.0 then LBFGSERR_INVALID_FTOL
    else if (p.linesearch == LINESEARCH_BACKTRACKING_WOLFE || p.linesearch == LINESEARCH_BACKTRACKING_STRONG_WOLFE)
            && (p.wolfe <= p.ftol || 1.0 <= p.wolfe) then LBFGSERR_INVALID_WOLFE
    else if p.gtol < 0.0 then LBFGSERR_INVALID_GTOL
    else if p.xtol < 0.0 then LBFGSERR_INVALID_XTOL
    else if p.maxLinesearch <= 0 then LBFGSERR_INVALID_MAXLINESEARCH
    else if p.orthantwiseC < 0.0 then LBFGSERR_INVALID_ORTHANTWISE
    else if p.orthantwiseStart < 0 || n < p.orthantwiseStart then LBFGSERR_INVALID_ORTHANTWISE_START
    else if n < p.orthantwiseEnd then LBFGSERR_INVALID_ORTHANTWISE_END
    else if p.orthantwiseC != 0.0 then
      if p.linesearch == LINESEARCH_BACKTRACKING_WOLFE then 0 else LBFGSERR_INVALID_LINESEARCH
    else if 0 <= p.linesearch <= 3 then 0
    else LBFGSERR_INVALID_LINESEARCH
  }

  /** The parameters that are accepted; with an L1 term only the Wolfe mode is. */
  lemma ParamsAccepted(n: int, p: Params)
    ensures CheckParams(n, p) == 0 <==>
      && 0 < n && 0.0 <= p.epsilon && 0 <= p.past && 0.0 <= p.delta && 0.0 <= p.minStep <= p.maxStep
      && 0.0 <= p.ftol && 0.0 <= p.gtol && 0.0 <= p.xtol && 0 < p.maxLinesearch
      && (p.linesearch == LINESEARCH_BACKTRACKING_WOLFE || p.linesearch == LINESEARCH_BACKTRACKING_STRONG_WOLFE ==>
            p.ftol < p.wolfe < 1.0)
      && 0.0 <= p.orthantwiseC && 0 <= p.orthantwiseStart <= n && p.orthantwiseEnd <= n
      && p.linesearch in {LINESEARCH_MORETHUENTE, LINESEARCH_BACKTRACKING_ARMIJO, LINESEARCH_BACKTRACKING_WOLFE,
                          LINESEARCH_BACKTRACKING_STRONG_WOLFE}
      && (p.orthantwiseC != 0.0 ==> p.linesearch == LINESEARCH_BACKTRACKING_WOLFE)
  {}

  /** An error code names a parameter that is out of its range, and everything tested before it is in range. */
  lemma ParamsRejected(n: int, p: Params)
    ensures var c := CheckParams(n, p);
      && (c == LBFGSERR_INVALID_N <==> n <= 0)
      && (c == LBFGSERR_INVALID_EPSILON <==> 0 < n && p.epsilon < 0.0)
      && (c == LBFGSERR_INVALID_TESTPERIOD <==> 0 < n && 0.0 <= p.epsilon && p.past < 0)
      && (c == LBFGSERR_INVALID_DELTA <==> 0 < n && 0.0 <= p.epsilon && 0 <= p.past && p.delta < 0.0)
      && (c == LBFGSERR_INVALID_MINSTEP ==> 0.0 <= p.delta && p.minStep < 0.0)
      && (c == LBFGSERR_INVALID_MAXSTEP ==> 0.0 <= p.minStep && p.maxStep < p.minStep)
      && (c == LBFGSERR_INVALID_FTOL ==> p.minStep <= p.maxStep && p.ftol < 0.0)
      && (c == LBFGSERR_INVALID_WOLFE ==>
            0.0 <= p.ftol && !(p.ftol < p.wolfe < 1.0)
            && p.linesearch in {LINESEARCH_BACKTRACKING_WOLFE, LINESEARCH_BACKTRACKING_STRONG_WOLFE})
      && (c == LBFGSERR_INVALID_GTOL ==> 0.0 <= p.ftol && p.gtol < 0.0)
      && (c == LBFGSERR_INVALID_XTOL ==> 0.0 <= p.gtol && p.xtol < 0.0)
      && (c == LBFGSERR_INVALID_MAXLINESEARCH ==> 0.0 <= p.xtol && p.maxLinesearch <= 0)
      && (c == LBFGSERR_INVALID_ORTHANTWISE ==> 0 < p.maxLinesearch && p.orthantwiseC < 0.0)
      && (c == LBFGSERR_INVALID_ORTHANTWISE_START ==>
            0.0 <= p.orthantwiseC && !(0 <= p.orthantwiseStart <= n))
      && (c == LBFGSERR_INVALID_ORTHANTWISE_END ==> 0 <= p.orthantwiseStart <= n && n < p.orthantwiseEnd)
      && (c == LBFGSERR_INVALID_LINESEARCH ==>
            p.orthantwiseEnd <= n && !(if p.orthantwiseC != 0.0 then p.linesearch == LINESEARCH_BACKTRACKING_WOLFE
                                       else 0 <= p.linesearch <= 3))
  {}

  /** Modes whose accepted steps have strictly increasing slope, hence positive curvature. */
  predicate CurvatureMode(p: Params) {
    p.orthantwiseC == 0.0
    && (p.linesearch == LINESEARCH_BACKTRACKING_WOLFE || p.linesearch == LINESEARCH_BACKTRACKING_STRONG_WOLFE
        || (p.linesearch == LINESEARCH_MORETHUENTE && p.gtol < 1.0))
  }

  lemma CheckedParams(n: int, p: Params)
    requires CheckParams(n, p) == 0
    ensures 0 < n && 0.0 <= p.epsilon && 0 <= p.past && 0.0 <= p.minStep <= p.maxStep && 0.0 <= p.ftol
    ensures 0 < p.maxLinesearch && 0.0 <= p.orthantwiseC
  {}

  // ----- accepted steps -----

  lemma DescentBound(f: real, f0: real, stp: real, ftol: real, dg0: real)
    requires f <= f0 + Mul(stp, Mul(ftol, dg0)) && 0.0 <= stp && 0.0 <= ftol && dg0 <= 0.0
    ensures f <= f0
  {
    var a := MulNonNeg(ftol, -dg0);
    var b := MulNonNeg(stp, a);
  }

  /** The correction pair of an accepted step: s is the step along d, and y^T s is the step times
      the increase of the slope. */
  lemma CurvatureOfStep(xp: Vec, d: Vec, stp: real, g: Vec, gp: Vec)
    requires |xp| == |d| == |g| == |gp|
    ensures Sub(Axpy(xp, stp, d), xp) == Scale(stp, d)
    ensures Dot(Sub(g, gp), Sub(Axpy(xp, stp, d), xp)) == Mul(stp, Dot(g, d) - Dot(gp, d))
  {
    hide Mul, Dot;
    var y := Sub(g, gp);
    assert Sub(Axpy(xp, stp, d), xp) == Scale(stp, d);
    DotSymmetric(y, Scale(stp, d));
    DotScale(stp, d, y);
    DotSymmetric(d, y);
    DotSub(g, gp, d);
  }

  /** A slope that a Wolfe or gtol test accepts has increased strictly. */
  lemma SlopeIncreases(w: real, dg0: real, dg: real)
    requires w < 1.0 && dg0 < 0.0
    requires Mul(w, dg0) <= dg || Abs(dg) <= Mul(w, -dg0)
    ensures dg0 < dg
  {
    var a := MulPos(1.0 - w, -dg0);
  }

  /** What the selected search without regularisation asks of a step. */
  ghost predicate SmoothAccepts(obj: Objective, xp: Vec, d: Vec, f0: real, dg0: real, p: Params, t: real)
    requires |xp| == |d| && IsObjective(obj, |d|)
  {
    if p.linesearch == LINESEARCH_MORETHUENTE then MoreThuente.Accepts(obj, xp, d, f0, dg0, p, t)
    else Backtracking.Accepts(obj, xp, d, f0, dg0, p, t)
  }

  /** t is the step of the k-th evaluation, and the search comes to it. */
  ghost predicate SmoothTrial(obj: Objective, xp: Vec, d: Vec, f0: real, dg0: real, p: Params, sqrt: real -> real,
                              stp0: real, k: nat, t: real)
    requires |xp| == |d| && IsObjective(obj, |d|)
  {
    if p.linesearch == LINESEARCH_MORETHUENTE then
      var e := MoreThuente.Env(f0, dg0, p, sqrt);
      var r := MoreThuente.Reach(e, stp0, MoreThuente.Phi(obj, xp, d), MoreThuente.DPhi(obj, xp, d), k);
      r.More? && t == MoreThuente.TrialPoint(e, r.next)
    else
      && t == Backtracking.StepAt(obj, xp, d, f0, dg0, p, stp0, k)
      && forall i :: 0 <= i < k ==>
           !Backtracking.Accepts(obj, xp, d, f0, dg0, p, Backtracking.StepAt(obj, xp, d, f0, dg0, p, stp0, i))
  }

  /** One of the at most max_linesearch trial steps of the search. */
  ghost predicate SmoothTried(obj: Objective, xp: Vec, d: Vec, f0: real, dg0: real, p: Params, sqrt: real -> real,
                              stp0: real, t: real)
    requires |xp| == |d| && IsObjective(obj, |d|)
  {
    exists k: nat :: k < p.maxLinesearch && SmoothTrial(obj, xp, d, f0, dg0, p, sqrt, stp0, k, t)
  }

  /** What a successful search along a descent direction guarantees to the iteration. */
  ghost predicate Progress(obj: Objective, p: Params, xp: Vec, d: Vec, f0: real, dg0: real, stp: real, f: real,
                           dg: real) {
    && 0.0 <= stp && f <= f0
    && (CurvatureMode(p) && dg0 < 0.0 ==> 0.0 < stp && dg0 < dg)
  }

  lemma BacktrackingProgress(obj: Objective, p: Params, xp: Vec, d: Vec, f0: real, dg0: real, stp: real)
    requires |xp| == |d| && IsObjective(obj, |d|) && CheckParams(|d|, p) == 0
    requires p.linesearch != LINESEARCH_MORETHUENTE && p.orthantwiseC == 0.0
    requires 0.0 < stp && dg0 <= 0.0 && Backtracking.Accepts(obj, xp, d, f0, dg0, p, stp)
    ensures Progress(obj, p, xp, d, f0, dg0, stp, Value(obj, xp, d, stp), Slope(obj, xp, d, stp))
  {
    hide Value, Slope, Mul;
    DescentBound(Value(obj, xp, d, stp), f0, stp, p.ftol, dg0);
    if CurvatureMode(p) && dg0 < 0.0 { SlopeIncreases(p.wolfe, dg0, Slope(obj, xp, d, stp)); }
  }

  lemma MoreThuenteStepNonNegative(e: MoreThuente.Env, stp0: real, phi: real -> real, dphi: real -> real, k: nat)
    requires MoreThuente.StepRange(e.p) && e.finit == phi(0.0) && e.dginit == dphi(0.0)
    requires MoreThuente.Reach(e, stp0, phi, dphi, k).More?
    ensures 0.0 <= MoreThuente.TrialPoint(e, MoreThuente.Reach(e, stp0, phi, dphi, k).next)
  {
    hide MoreThuente.Step, MoreThuente.TrialPoint, MoreThuente.StageOne, MoreThuente.Reach;
    MoreThuente.ReachableInvariant(e, stp0, phi, dphi, k);
    MoreThuente.InRangeInvariant(e, MoreThuente.Reach(e, stp0, phi, dphi, k).next, 0.0, 0.0);
  }

  lemma MoreThuenteProgress(obj: Objective, p: Params, xp: Vec, d: Vec, f0: real, dg0: real, stp0: real,
                            evals: nat, stp: real, sqrt: real -> real)
    requires |xp| == |d| && IsObjective(obj, |d|) && CheckParams(|d|, p) == 0
    requires f0 == obj.f(xp) && dg0 == Dot(obj.grad(xp), d) && dg0 <= 0.0 && 0 < evals
    requires var r := MoreThuente.Reach(MoreThuente.Env(f0, dg0, p, sqrt), stp0, MoreThuente.Phi(obj, xp, d),
                                        MoreThuente.DPhi(obj, xp, d), evals - 1);
             r.More? && stp == MoreThuente.TrialPoint(MoreThuente.Env(f0, dg0, p, sqrt), r.next)
    requires MoreThuente.Accepts(obj, xp, d, f0, dg0, p, stp)
    requires p.linesearch == LINESEARCH_MORETHUENTE && p.orthantwiseC == 0.0
    ensures SmoothAccepts(obj, xp, d, f0, dg0, p, stp)
    ensures Progress(obj, p, xp, d, f0, dg0, stp, Value(obj, xp, d, stp), Slope(obj, xp, d, stp))
  {
    hide Mul, Dot, Axpy, MoreThuente.Reach, MoreThuente.TrialPoint;
    StepZero(xp, d);
    MoreThuenteStepNonNegative(MoreThuente.Env(f0, dg0, p, sqrt), stp0, MoreThuente.Phi(obj, xp, d),
                               MoreThuente.DPhi(obj, xp, d), evals - 1);
    DescentBound(Value(obj, xp, d, stp), f0, stp, p.ftol, dg0);
    if CurvatureMode(p) && dg0 < 0.0 { SlopeIncreases(p.gtol, dg0, Slope(obj, xp, d, stp)); }
  }

  /** The code of a backtracking search that ends with its trial step number k. */
  function BacktrackingCode(p: Params, accepted: bool, stp: real, k: nat): int {
    if accepted then k + 1
    else if stp < p.minStep then LBFGSERR_MINIMUMSTEP
    else if p.maxStep < stp then LBFGSERR_MAXIMUMSTEP
    else LBFGSERR_MAXIMUMLINESEARCH
  }

  /** The search ends with ls at its trial step number k; it succeeds exactly when that is accepted and, for the
      Moré-Thuente search, nothing else stands in the way. */
  ghost predicate SmoothEnds(obj: Objective, xp: Vec, d: Vec, f0: real, dg0: real, p: Params, sqrt: real -> real,
                             stp0: real, k: nat, ls: int, stp: real)
    requires |xp| == |d| && IsObjective(obj, |d|)
  {
    && SmoothTrial(obj, xp, d, f0, dg0, p, sqrt, stp0, k, stp)
    && (if p.linesearch == LINESEARCH_MORETHUENTE then
          var e := MoreThuente.Env(f0, dg0, p, sqrt);
          && MoreThuente.EndsAt(obj, xp, d, e, stp0, k + 1, stp, ls)
          && (0 <= ls <==> SmoothAccepts(obj, xp, d, f0, dg0, p, stp)
                           && MoreThuente.Clear(obj, xp, d, e, stp0, k + 1, stp))
          && (0 <= ls ==> ls == k + 1)
        else
          ls == BacktrackingCode(p, SmoothAccepts(obj, xp, d, f0, dg0, p, stp), stp, k))
  }

  /** How a search from xp along d ends: refused uphill before any evaluation, or with the value at the last of
      its at most max_linesearch trial steps. */
  ghost predicate Searched(obj: Objective, p: Params, xp: Vec, d: Vec, f0: real, dg0: real, sqrt: real -> real,
                           stp0: real, ls: int, f: real, stp: real)
    requires |xp| == |d| && IsObjective(obj, |d|)
  {
    && (ls == LBFGSERR_INCREASEGRADIENT <==> 0.0 < dg0)
    && (if 0.0 < dg0 then f == f0 && stp == stp0
        else
          && f == Value(obj, xp, d, stp)
          && exists k: nat :: k < p.maxLinesearch && SmoothEnds(obj, xp, d, f0, dg0, p, sqrt, stp0, k, ls, stp))
    && (0 <= ls ==> Progress(obj, p, xp, d, f0, dg0, stp, f, Slope(obj, xp, d, stp)))
  }

  lemma MoreThuenteSearched(obj: Objective, p: Params, xp: Vec, d: Vec, f0: real, dg0: real, stp0: real,
                            ls: int, stp: real, evals: nat, sqrt: real -> real)
    requires |xp| == |d| && IsObjective(obj, |d|) && CheckParams(|d|, p) == 0
    requires f0 == obj.f(xp) && dg0 == Dot(obj.grad(xp), d) && dg0 <= 0.0
    requires 0 < evals <= p.maxLinesearch && ls != LBFGSERR_INCREASEGRADIENT
    requires p.linesearch == LINESEARCH_MORETHUENTE && p.orthantwiseC == 0.0
    requires MoreThuente.EndsAt(obj, xp, d, MoreThuente.Env(f0, dg0, p, sqrt), stp0, evals, stp, ls)
    ensures Searched(obj, p, xp, d, f0, dg0, sqrt, stp0, ls, Value(obj, xp, d, stp), stp)
  {
    hide MoreThuente.Reach, MoreThuente.TrialPoint, MoreThuente.Phi, MoreThuente.DPhi, MoreThuente.Step, Value, Slope,
         Mul, Abs, Progress, MoreThuente.Accepts, MoreThuente.Clear;
    MoreThuente.AnswerExact(obj, xp, d, MoreThuente.Env(f0, dg0, p, sqrt), stp0, evals, stp, ls);
    assert SmoothEnds(obj, xp, d, f0, dg0, p, sqrt, stp0, evals - 1, ls, stp);
    if 0 <= ls { MoreThuenteProgress(obj, p, xp, d, f0, dg0, stp0, evals, stp, sqrt); }
  }

  lemma BacktrackingSearched(obj: Objective, p: Params, xp: Vec, d: Vec, f0: real, dg0: real, stp0: real,
                             ls: int, stp: real, evals: nat, sqrt: real -> real)
    requires |xp| == |d| && IsObjective(obj, |d|) && CheckParams(|d|, p) == 0
    requires 0 < evals <= p.maxLinesearch && ls != LBFGSERR_INCREASEGRADIENT && dg0 <= 0.0 < stp
    requires p.linesearch != LINESEARCH_MORETHUENTE && p.orthantwiseC == 0.0
    requires stp == Backtracking.StepAt(obj, xp, d, f0, dg0, p, stp0, evals - 1)
    requires forall i :: 0 <= i < evals - 1 ==>
               !Backtracking.Accepts(obj, xp, d, f0, dg0, p, Backtracking.StepAt(obj, xp, d, f0, dg0, p, stp0, i))
    requires ls == BacktrackingCode(p, Backtracking.Accepts(obj, xp, d, f0, dg0, p, stp), stp, evals - 1)
    ensures Searched(obj, p, xp, d, f0, dg0, sqrt, stp0, ls, Value(obj, xp, d, stp), stp)
  {
    hide Backtracking.StepAt, Backtracking.Accepts, Value, Slope, Mul, Abs, Progress;
    assert SmoothEnds(obj, xp, d, f0, dg0, p, sqrt, stp0, evals - 1, ls, stp);
    if 0 <= ls { BacktrackingProgress(obj, p, xp, d, f0, dg0, stp); }
  }

  lemma SearchRefused(obj: Objective, p: Params, xp: Vec, d: Vec, f0: real, dg0: real, stp0: real, sqrt: real -> real)
    requires |xp| == |d| && IsObjective(obj, |d|) && 0.0 < dg0
    ensures Searched(obj, p, xp, d, f0, dg0, sqrt, stp0, LBFGSERR_INCREASEGRADIENT, f0, stp0)
  {}

  /** The same of the orthant-wise search, which is never refused: its steps are halves of the first, and
      it fails exactly when the last of them is not accepted. */
  ghost predicate OrthantSearched(obj: Objective, p: Params, xp: Vec, d: Vec, f0: real, pg: Vec, start: nat, end: nat,
                                  stp0: real, ls: int, f: real, stp: real)
    requires |xp| == |d| == |pg| && start <= |xp| && end <= |xp|
  {
    && ls != LBFGSERR_INCREASEGRADIENT
    && f == OwlQn.Regularised(obj, p.orthantwiseC, start, end, OwlQn.Trial(xp, d, pg, start, end, stp))
    && exists k: nat :: k < p.maxLinesearch && OrthantEnds(obj, p, xp, d, f0, pg, start, end, stp0, k, ls, stp)
  }

  /** The orthant-wise search ends with ls at its trial step number k, the first that is accepted, if any is. */
  ghost predicate OrthantEnds(obj: Objective, p: Params, xp: Vec, d: Vec, f0: real, pg: Vec, start: nat, end: nat,
                              stp0: real, k: nat, ls: int, stp: real)
    requires |xp| == |d| == |pg| && start <= |xp| && end <= |xp|
  {
    && stp == OwlQn.Halved(stp0, k)
    && (forall i :: 0 <= i < k ==> !OwlQn.OwlqnAccepts(obj, xp, d, pg, f0, p, start, end, OwlQn.Halved(stp0, i)))
    && ls == BacktrackingCode(p, OwlQn.OwlqnAccepts(obj, xp, d, pg, f0, p, start, end, stp), stp, k)
  }

  lemma OnLine(obj: Objective, xp: Vec, s: Vec, t: real)
    requires |xp| == |s| && IsObjective(obj, |s|)
    ensures Value(obj, xp, s, t) == obj.f(Axpy(xp, t, s)) && Slope(obj, xp, s, t) == Dot(obj.grad(Axpy(xp, t, s)), s)
  {}

  /** The two searches without regularisation, with what the iteration needs of them. */
  method SmoothLineSearch(x: array<real>, f0: real, g: array<real>, s: Vec, stp0: real, xp: Vec,
                          obj: Objective, p: Params, sqrt: real -> real)
    returns (ls: int, f: real, stp: real)
    requires x != g && x.Length == g.Length == |s| == |xp| && IsObjective(obj, |s|)
    requires CheckParams(|s|, p) == 0 && p.orthantwiseC == 0.0
    requires f0 == obj.f(xp) && g[..] == obj.grad(xp) && 0.0 < stp0
    modifies x, g
    ensures Searched(obj, p, xp, s, f0, Dot(old(g[..]), s), sqrt, stp0, ls, f, stp)
    ensures 0 <= ls ==> x[..] == Axpy(xp, stp, s) && g[..] == obj.grad(x[..])
  {
    hide Searched, CheckParams, Dot, Axpy;
    if p.linesearch == LINESEARCH_MORETHUENTE {
      ls, f, stp := SmoothMoreThuente(x, f0, g, s, stp0, xp, obj, p, sqrt);
    } else {
      ls, f, stp := SmoothBacktracking(x, f0, g, s, stp0, xp, obj, p, sqrt);
    }
  }

  method SmoothMoreThuente(x: array<real>, f0: real, g: array<real>, s: Vec, stp0: real, xp: Vec,
                           obj: Objective, p: Params, sqrt: real -> real)
    returns (ls: int, f: real, stp: real)
    requires x != g && x.Length == g.Length == |s| == |xp| && IsObjective(obj, |s|)
    requires CheckParams(|s|, p) == 0 && p.orthantwiseC == 0.0 && p.linesearch == LINESEARCH_MORETHUENTE
    requires f0 == obj.f(xp) && g[..] == obj.grad(xp) && 0.0 < stp0
    modifies x, g
    ensures Searched(obj, p, xp, s, f0, Dot(old(g[..]), s), sqrt, stp0, ls, f, stp)
    ensures 0 <= ls ==> x[..] == Axpy(xp, stp, s) && g[..] == obj.grad(x[..])
  {
    CheckedParams(|s|, p);
    hide *;
    ghost var dg0 := Dot(g[..], s);
    ghost var evals: nat;
    ls, f, stp, evals := MoreThuente.LineSearchMoreThuente(x, f0, g, s, stp0, xp, obj, p, sqrt);
    if evals == 0 {
      SearchRefused(obj, p, xp, s, f0, dg0, stp0, sqrt);
    } else {
      OnLine(obj, xp, s, stp);
      MoreThuenteSearched(obj, p, xp, s, f0, dg0, stp0, ls, stp, evals, sqrt);
    }
  }

  method SmoothBacktracking(x: array<real>, f0: real, g: array<real>, s: Vec, stp0: real, xp: Vec,
                            obj: Objective, p: Params, ghost sqrt: real -> real)
    returns (ls: int, f: real, stp: real)
    requires x != g && x.Length == g.Length == |s| == |xp| && IsObjective(obj, |s|)
    requires CheckParams(|s|, p) == 0 && p.orthantwiseC == 0.0 && p.linesearch != LINESEARCH_MORETHUENTE
    requires f0 == obj.f(xp) && g[..] == obj.grad(xp) && 0.0 < stp0
    modifies x, g
    ensures Searched(obj, p, xp, s, f0, Dot(old(g[..]), s), sqrt, stp0, ls, f, stp)
    ensures 0 <= ls ==> x[..] == Axpy(xp, stp, s) && g[..] == obj.grad(x[..])
  {
    CheckedParams(|s|, p);
    hide Searched, CheckParams, Abs, Dot, Axpy, Mul, Value, IsObjective, Backtracking.Accepts, Backtracking.StepAt;
    ghost var dg0 := Dot(g[..], s);
    ghost var evals: nat;
    ls, f, stp, evals := Backtracking.LineSearchBacktracking(x, f0, g, s, stp0, xp, obj, p);
    if evals == 0 {
      SearchRefused(obj, p, xp, s, f0, dg0, stp0, sqrt);
    } else {
      OnLine(obj, xp, s, stp);
      BacktrackingSearched(obj, p, xp, s, f0, dg0, stp0, ls, stp, evals, sqrt);
    }
  }

  /** The orthant-wise search, and the pseudo-gradient at the point it ends in. */
  method OrthantLineSearch(x: array<real>, f0: real, g: array<real>, s: Vec, stp0: real, xp: Vec, pg: array<real>,
                           w: array<real>, obj: Objective, p: Params, start: nat, end: nat)
    returns (ls: int, f: real, stp: real)
    requires x != g && x != w && g != w && pg != x && pg != g && pg != w
    requires x.Length == g.Length == w.Length == pg.Length == |s| == |xp| && IsObjective(obj, |s|)
    requires start <= |s| && end <= |s| && 0.0 < stp0 && 0 < p.maxLinesearch && 0.0 <= p.orthantwiseC
    modifies x, g, w, pg
    ensures OrthantSearched(obj, p, xp, s, f0, old(pg[..]), start, end, stp0, ls, f, stp)
    ensures 0.0 < stp && x[..] == OwlQn.Trial(xp, s, old(pg[..]), start, end, stp) && g[..] == obj.grad(x[..])
    ensures pg[..] == OwlQn.PseudoGradient(x[..], g[..], p.orthantwiseC, start, end)
  {
    hide Mul, Axpy, Dot, OwlQn.PseudoGradient, OwlQn.Regularised, OwlQn.OwlqnAccepts, OwlQn.Trial, OwlQn.Halved;
    ghost var evals: nat;
    ls, f, stp, evals := OwlQn.LineSearchBacktrackingOwlqn(x, f0, g, s, stp0, xp, pg[..], w, obj, p, start, end);
    assert OrthantEnds(obj, p, xp, s, f0, old(pg[..]), start, end, stp0, evals - 1, ls, stp);
    OwlQn.ComputePseudoGradient(pg, x[..], g[..], p.orthantwiseC, start, end);
  }

  // ----- the ring buffer against the whole history -----

  ghost function Newest(hist: seq<Pair>, bound: nat): seq<Pair>
    requires bound <= |hist|
  {
    hist[|hist| - bound..]
  }

  /** The buffer holds the newest min(m, |hist|) corrections of the run, in ring order. */
  ghost predicate RingHolds(lm: seq<IterationData>, end: nat, hist: seq<Pair>, n: nat) {
    && end < |lm|
    && (forall i :: 0 <= i < |hist| ==> hist[i].Valid(n))
    && forall back :: 1 <= back <= |lm| && back <= |hist| ==>
         var e := lm[RingIndex(end, |lm|, back)];
         Pair(e.s, e.y) == hist[|hist| - back] && e.ys == Dot(e.y, e.s)
  }

  lemma RingShift(end: nat, m: nat, back: nat)
    requires end < m && 1 <= back <= m
    ensures RingNext(end, m) < m
    ensures RingIndex(RingNext(end, m), m, back) == if back == 1 then end else RingIndex(end, m, back - 1)
    ensures back < m ==> RingIndex(end, m, back) != end
  {
    hide RingNext;
  }

  lemma RingPush(lm: seq<IterationData>, end: nat, hist: seq<Pair>, n: nat, e: IterationData)
    requires RingHolds(lm, end, hist, n) && Pair(e.s, e.y).Valid(n) && e.ys == Dot(e.y, e.s)
    ensures RingHolds(lm[end := e], RingNext(end, |lm|), hist + [Pair(e.s, e.y)], n)
  {
    hide Dot, RingNext, RingIndex;
    var m, lm', h' := |lm|, lm[end := e], hist + [Pair(e.s, e.y)];
    var end' := RingNext(end, m);
    RingShift(end, m, 1);
    forall back | 1 <= back <= m && back <= |h'|
      ensures var e' := lm'[RingIndex(end', m, back)];
              Pair(e'.s, e'.y) == h'[|h'| - back] && e'.ys == Dot(e'.y, e'.s)
    {
      RingShift(end, m, back);
      if back > 1 {
        RingShift(end, m, back - 1);
        assert h'[|h'| - back] == hist[|hist| - (back - 1)];
      }
    }
  }

  lemma RingNewest(lm: seq<IterationData>, end: nat, hist: seq<Pair>, n: nat, bound: nat)
    requires RingHolds(lm, end, hist, n) && bound <= |lm| && bound <= |hist|
    ensures RingValid(lm, end, bound, n) && RingPairs(lm, end, bound) == Newest(hist, bound)
  {
    hide Dot;
    var ps := RingPairs(lm, end, bound);
    forall i | 0 <= i < bound
      ensures ps[i] == Newest(hist, bound)[i]
    {
      assert ps[bound - (bound - i)] == hist[|hist| - (bound - i)];
    }
  }

  lemma RingSameButAlpha(lm: seq<IterationData>, lm': seq<IterationData>, end: nat, hist: seq<Pair>, n: nat)
    requires RingHolds(lm, end, hist, n) && SameButAlpha(lm', lm)
    ensures RingHolds(lm', end, hist, n)
  {}

  /** The search direction the run should have: minus the gradient at first, then minus the matrix of
      the newest min(m, k) corrections times the gradient. */
  ghost function Direction(hist: seq<Pair>, m: nat, g: Vec): (d: Vec)
    requires AllValid(hist, |g|)
    ensures |d| == |g|
  {
    if |hist| == 0 then Neg(g)
    else
      var bound := if m <= |hist| then m else |hist|;
      MatVec(InverseHessian(Newest(hist, bound), ScaleOf(hist[|hist|-1]), |g|), Neg(g))
  }

  /** ys / yy */
  ghost function ScaleOf(p: Pair): real
    requires |p.s| == |p.y|
  {
    Quot(Dot(p.y, p.s), Dot(p.y, p.y))
  }

  /** The scale is the one with which y comes closest to s. */
  lemma ScaleIsLeastSquares(q: Pair, c: real)
    requires |q.s| == |q.y| && Dot(q.y, q.y) != 0.0
    ensures Dot(Sub(q.s, Scale(ScaleOf(q), q.y)), Sub(q.s, Scale(ScaleOf(q), q.y)))
         <= Dot(Sub(q.s, Scale(c, q.y)), Sub(q.s, Scale(c, q.y)))
  {
    hide Dot, Mul;
    var best, ss, ys, yy := ScaleOf(q), Dot(q.s, q.s), Dot(q.y, q.s), Dot(q.y, q.y);
    Residual(q.s, q.y, c);
    Residual(q.s, q.y, best);
    DotSelf(q.y);
    RatioTimes(ys, yy, best);
    LeastSquare(ss, ys, yy, best, c);
  }

  lemma Residual(s: Vec, y: Vec, c: real)
    requires |s| == |y|
    ensures Dot(Sub(s, Scale(c, y)), Sub(s, Scale(c, y)))
         == Dot(s, s) - Mul(c, Dot(y, s)) - Mul(c, Dot(y, s) - Mul(c, Dot(y, y)))
  {
    hide *;
    var r := Sub(s, Scale(c, y));
    ResidualDot(s, y, c, r);
    ResidualDot(s, y, c, s);
    ResidualDot(s, y, c, y);
    DotSymmetric(s, r);
    DotSymmetric(y, r);
    DotSymmetric(s, y);
  }

  lemma ResidualDot(s: Vec, y: Vec, c: real, v: Vec)
    requires |s| == |y| == |v|
    ensures Dot(Sub(s, Scale(c, y)), v) == Dot(s, v) - Mul(c, Dot(y, v))
  {
    hide *;
    DotSub(s, Scale(c, y), v);
    DotScale(c, y, v);
  }

  lemma LeastSquare(ss: real, ys: real, yy: real, best: real, c: real)
    requires 0.0 <= yy && best * yy == ys
    ensures ss - Mul(best, ys) - Mul(best, ys - Mul(best, yy)) <= ss - Mul(c, ys) - Mul(c, ys - Mul(c, yy))
  {
    var d := SquareNonNeg(c - best);
    var e := MulNonNeg(d, yy);
    assert e == (c - best) * (c - best) * yy;
    assert (c - best) * (c - best) * yy == c * (c * yy) - 2.0 * (c * (best * yy)) + best * (best * yy);
  }

  ghost predicate PositiveCurvature(hist: seq<Pair>, n: nat) {
    forall i :: 0 <= i < |hist| ==> hist[i].Valid(n) && 0.0 < hist[i].Ys()
  }

  lemma DirectionIs(hist: seq<Pair>, m: nat, g: Vec, bound: nat, ys: real, yy: real)
    requires AllValid(hist, |g|) && |hist| > 0 && bound == (if m <= |hist| then m else |hist|) && yy != 0.0
    requires ys == Dot(hist[|hist|-1].y, hist[|hist|-1].s) && yy == Dot(hist[|hist|-1].y, hist[|hist|-1].y)
    ensures AllValid(Newest(hist, bound), |g|)
    ensures Direction(hist, m, g) == MatVec(InverseHessian(Newest(hist, bound), ys / yy, |g|), Neg(g))
  {
    hide Dot, InverseHessian, MatVec;
  }

  lemma YNotZero(s: Vec, y: Vec)
    requires |s| == |y| && Dot(y, s) != 0.0
    ensures 0.0 < Dot(y, y)
  {
    DotSelf(y);
    if y == Zero(|y|) { DotZero(|s|, s); assert false; }
  }

  lemma DirectionDescent(hist: seq<Pair>, m: nat, g: Vec)
    requires AllValid(hist, |g|) && PositiveCurvature(hist, |g|) && g != Zero(|g|)
    ensures Dot(g, Direction(hist, m, g)) < 0.0
  {
    hide Dot, InverseHessian, MatVec, ApplyH;
    if |hist| == 0 {
      DotSymmetric(g, Neg(g));
      DotNeg(g, g);
      DotSelf(g);
    } else {
      var last := hist[|hist|-1];
      var bound := if m <= |hist| then m else |hist|;
      var ps := Newest(hist, bound);
      YNotZero(last.s, last.y);
      PositiveQuot(Dot(last.y, last.s), Dot(last.y, last.y));
      DirectionDescends(ps, ScaleOf(last), g);
      ApplyIsMatrix(ps, ScaleOf(last), Neg(g));
    }
  }

  lemma PositiveQuot(a: real, b: real)
    requires 0.0 < a && 0.0 < b
    ensures 0.0 < Quot(a, b)
  {
    QuotSign(a, b);
  }

  // ----- a run without regularisation, as the points it goes through -----

  /** What one iteration hands to the next: the point, the corrections so far, the first step to try. */
  datatype Waypoint = Waypoint(x: Vec, hist: seq<Pair>, step: real)

  /** From a to b in one iteration: along the direction of the newest corrections by a trial step that the
      search accepts, with the new correction remembered. */
  ghost predicate Turn(obj: Objective, n: nat, p: Params, sqrt: real -> real, a: Waypoint, b: Waypoint) {
    && IsObjective(obj, n) && |a.x| == |b.x| == n && AllValid(a.hist, n) && 0 < p.m && b.step == 1.0
    && var f, g := obj.f(a.x), obj.grad(a.x);
       var d := Direction(a.hist, p.m, g);
       && b.hist == a.hist + [Pair(Sub(b.x, a.x), Sub(obj.grad(b.x), g))]
       && exists t :: SmoothTried(obj, a.x, d, f, Dot(g, d), p, sqrt, a.step, t)
                      && SmoothAccepts(obj, a.x, d, f, Dot(g, d), p, t) && b.x == Axpy(a.x, t, d)
  }

  ghost function StartPoint(obj: Objective, x: Vec, sqrt: real -> real): Waypoint {
    Waypoint(x, [], Quot(1.0, Norm(obj.grad(x), sqrt)))
  }

  ghost predicate Turns(obj: Objective, n: nat, p: Params, sqrt: real -> real, path: seq<Waypoint>) {
    |path| > 0 && forall i :: 0 <= i < |path| - 1 ==> Turn(obj, n, p, sqrt, path[i], path[i + 1])
  }

  // ----- padding lanes -----

  ghost predicate PairTail(p: Pair, live: nat) {
    ZeroTail(p.s, live) && ZeroTail(p.y, live)
  }

  lemma {:induction false} ApplyHTail(ps: seq<Pair>, scale: real, v: Vec, live: nat)
    requires AllValid(ps, |v|) && ZeroTail(v, live) && live <= |v|
    requires forall i :: 0 <= i < |ps| ==> PairTail(ps[i], live)
    ensures ZeroTail(ApplyH(ps, scale, v), live)
  {
    hide Dot, Alpha, Beta;
    if |ps| == 0 {
      KernelsPadded(v, v, scale, live);
    } else {
      var p, rest := ps[|ps|-1], ps[..|ps|-1];
      KernelsPadded(p.y, v, -Alpha(p, v), live);
      ApplyHTail(rest, scale, Down(p, v), live);
      var r := ApplyH(rest, scale, Down(p, v));
      KernelsPadded(p.s, r, Alpha(p, v) - Beta(p, r), live);
    }
  }

  lemma MatrixTail(ps: seq<Pair>, scale: real, d: Vec, live: nat)
    requires AllValid(ps, |d|) && live <= |d| && ZeroTail(d, live)
    requires forall i :: 0 <= i < |ps| ==> PairTail(ps[i], live)
    ensures ZeroTail(MatVec(InverseHessian(ps, scale, |d|), d), live)
  {
    ApplyHTail(ps, scale, d, live);
    ApplyIsMatrix(ps, scale, d);
  }

  lemma NewestTail(hist: seq<Pair>, bound: nat, scale: real, d: Vec, live: nat)
    requires AllValid(hist, |d|) && bound <= |hist| && live <= |d| && ZeroTail(d, live)
    requires forall i :: 0 <= i < |hist| ==> PairTail(hist[i], live)
    ensures AllValid(Newest(hist, bound), |d|)
    ensures ZeroTail(MatVec(InverseHessian(Newest(hist, bound), scale, |d|), d), live)
  {
    hide MatVec, InverseHessian;
    MatrixTail(Newest(hist, bound), scale, d, live);
  }

  // ----- the optimiser -----

  type ProgressCallback = (Vec, Vec, real, real, real, real, nat, int) -> int

  datatype Status =
    | Running
    | Stopped(ret: int)
    | SearchFailed(ret: int)   // the same return, after x and g went back to the previous point
    | Undefined   // a curvature y^T s of zero, by which the C code divides

  class Optimizer {
    const n: nat
    const p: Params
    const obj: Objective
    const sqrt: real -> real
    const progress: ProgressCallback
    /** The regularised range, with a negative end already replaced by n. */
    const rStart: nat
    const rEnd: nat
    /** Lanes from live on are padding. */
    ghost const live: nat

    const x: array<real>
    const g: array<real>
    const d: array<real>
    const w: array<real>
    const pg: array<real>
    const lm: array<IterationData>
    var xp: Vec
    var gp: Vec
    var pf: seq<real>
    var fx: real
    var step: real
    var k: nat
    var end: nat
    /** Every correction pair of the run, oldest first. */
    ghost var hist: seq<Pair>
    /** The starting point and every accepted iterate, in order. */
    ghost var trace: seq<Vec>
    /** The point of the newest evaluation. */
    ghost var last: Vec

    ghost predicate Shape() {
      && x.Length == n && g.Length == n && d.Length == n && w.Length == n && pg.Length == n
      && x != g && x != d && x != w && x != pg && g != d && g != w && g != pg && d != w && d != pg && w != pg
      && 0 < n && live <= n && rStart <= n && rEnd <= n
      && p.m == lm.Length && 0 < lm.Length
      && CheckParams(n, p) == 0 && IsObjective(obj, n) && IsSqrt(sqrt)
    }

    /** What the run minimises. */
    ghost function Cost(v: Vec): real
      requires rStart <= n && rEnd <= n && |v| == n
    {
      if p.orthantwiseC == 0.0 then obj.f(v) else OwlQn.Regularised(obj, p.orthantwiseC, rStart, rEnd, v)
    }

    /** The client's gradient keeps the padding lanes at zero. */
    ghost predicate PadsZero() {
      forall v: Vec :: |v| == n && ZeroTail(v, live) ==> ZeroTail(obj.grad(v), live)
    }

    ghost predicate TailsZero()
      reads this, x, g, d
    {
      ZeroTail(x[..], live) && ZeroTail(g[..], live) && ZeroTail(d[..], live)
      && forall i :: 0 <= i < |hist| ==> PairTail(hist[i], live)
    }

    /** What the search takes for the gradient at x. */
    ghost function SlopeAt(): Vec
      reads g, pg
    {
      if p.orthantwiseC == 0.0 then g[..] else pg[..]
    }

    /** The trial point of step t. */
    ghost function PointAt(xp: Vec, d: Vec, slope: Vec, t: real): (v: Vec)
      requires Shape() && |xp| == |d| == |slope| == n
      ensures |v| == n
    {
      if p.orthantwiseC == 0.0 then Axpy(xp, t, d) else OwlQn.Trial(xp, d, slope, rStart, rEnd, t)
    }

    /** fx and step after a search from xp along d: those of its last evaluation, if there was one. */
    ghost predicate SearchEnds(xp: Vec, d: Vec, slope: Vec, f0: real, stp0: real, ls: int)
      requires Shape() && |xp| == |d| == |slope| == n
      reads this
    {
      && (if p.orthantwiseC == 0.0
          then Searched(obj, p, xp, d, f0, Dot(slope, d), sqrt, stp0, ls, fx, step)
          else OrthantSearched(obj, p, xp, d, f0, slope, rStart, rEnd, stp0, ls, fx, step))
      && last == if ls == LBFGSERR_INCREASEGRADIENT then xp else PointAt(xp, d, slope, step)
    }

    ghost function Here(): (a: Waypoint)
      reads this, x
      ensures a.x == x[..]
    {
      Waypoint(x[..], hist, step)
    }

    /** ... and what it becomes with the step from there to v. */
    ghost function Next(a: Waypoint, v: Vec): (b: Waypoint)
      requires Shape() && |a.x| == |v| == n
      ensures b.x == v
    {
      Waypoint(v, a.hist + [Pair(Sub(v, a.x), Sub(obj.grad(v), obj.grad(a.x)))], 1.0)
    }

    /** t is a trial step that the search accepts. */
    ghost predicate Taken(xp: Vec, d: Vec, slope: Vec, f0: real, stp0: real, t: real)
      requires Shape() && |xp| == |d| == |slope| == n
    {
      if p.orthantwiseC == 0.0 then
        SmoothTried(obj, xp, d, f0, Dot(slope, d), p, sqrt, stp0, t)
        && SmoothAccepts(obj, xp, d, f0, Dot(slope, d), p, t)
      else
        (exists k: nat :: k < p.maxLinesearch && t == OwlQn.Halved(stp0, k))
        && OwlQn.OwlqnAccepts(obj, xp, d, slope, f0, p, rStart, rEnd, t)
    }

    /** x, g and fx belong together. */
    ghost predicate Evaluated()
      requires Shape()
      reads this, x, g, pg
    {
      && g[..] == obj.grad(x[..]) && fx == Cost(x[..]) && last == x[..]
      && (p.orthantwiseC != 0.0 ==>
            pg[..] == OwlQn.PseudoGradient(x[..], g[..], p.orthantwiseC, rStart, rEnd))
    }

    /** The buffer is the newest part of the history, all of it with positive curvature where the mode
        guarantees that. */
    ghost predicate Remembers()
      requires Shape()
      reads this, lm
    {
      && k == |hist| + 1 && AllValid(hist, n) && RingHolds(lm[..], end, hist, n)
      && (CurvatureMode(p) ==> PositiveCurvature(hist, n))
      && |pf| == p.past
    }

    /** The direction is the quasi-Newton one, restricted to the orthant under regularisation, and downhill
        where the mode guarantees it. */
    ghost predicate Directed()
      requires Shape() && Remembers()
      reads this, g, d, pg, lm
    {
      && d[..] == (if p.orthantwiseC == 0.0 then Direction(hist, lm.Length, g[..])
                   else OwlQn.Restrict(Direction(hist, lm.Length, pg[..]), pg[..], rStart, rEnd))
      && (CurvatureMode(p) ==> Dot(g[..], d[..]) < 0.0)
      && 0.0 < step
    }

    /** Along the accepted points the cost never rises. */
    ghost predicate Descending(t: seq<Vec>)
      requires Shape()
    {
      && |t| > 0 && (forall j :: 0 <= j < |t| ==> |t[j]| == n)
      && (Monotone() ==> forall i, j :: 0 <= i <= j < |t| ==> Cost(t[j]) <= Cost(t[i]))
    }

    /** The ring holds the costs of the last past of the first count accepted points. */
    ghost predicate PastHolds(t: seq<Vec>, ring: seq<real>, count: nat)
      requires Shape() && Descending(t)
    {
      && |ring| == p.past && count <= |t|
      && forall j :: 0 <= j < count && count - p.past <= j ==> ring[j % p.past] == Cost(t[j])
    }

    /** The accepted points end in x, and pf knows the last of them. */
    ghost predicate Traced(count: nat)
      requires Shape()
      reads this, x
    {
      Descending(trace) && |trace| == count && trace[count - 1] == x[..]
    }

    /** The invariant at the top of every iteration. */
    ghost predicate Valid()
      reads this, x, g, d, pg, lm
    {
      && Shape() && Evaluated() && Remembers() && Directed() && (PadsZero() ==> TailsZero())
      && Traced(k) && PastHolds(trace, pf, k)
    }

    /** Objective values cannot rise: no regularisation, or all coordinates regularised but padding. */
    ghost predicate Monotone() {
      p.orthantwiseC == 0.0 || (rStart == 0 && (rEnd == n || (live <= rEnd && PadsZero())))
    }

    ghost function GradientNorm(): real
      reads g, pg
    {
      if p.orthantwiseC == 0.0 then Norm(g[..], sqrt) else Norm(pg[..], sqrt)
    }

    /** The convergence test: gradient norm against epsilon times max(1, |x|). */
    ghost predicate Converged()
      reads x, g, pg
    {
      GradientNorm() / Max2(1.0, Norm(x[..], sqrt)) <= p.epsilon
    }

    /** The cost has changed, relative to its present value, by less than delta over the last past
        iterations. A zero cost makes the quotient infinite or NaN, and the test false. */
    ghost predicate Stalled()
      requires Shape() && Traced(k + 1)
      reads this, x
    {
      0 < p.past <= k && fx != 0.0 && Abs((Cost(trace[k - p.past]) - fx) / fx) < p.delta
    }

    /** What the tests after a successful search decide, in their order: the client, convergence, the
        past improvement, the number of iterations. */
    ghost predicate StopsWith(ls: int, stop: bool, ret: int)
      requires Shape() && Traced(k + 1)
      reads this, x, g, pg
    {
      var client := progress(x[..], g[..], fx, Norm(x[..], sqrt), GradientNorm(), step, k, ls);
      if client != 0 then stop && ret == client
      else if Converged() then stop && ret == LBFGS_SUCCESS
      else if Stalled() then stop && ret == LBFGS_STOP
      else if 0 != p.maxIterations < k + 1 then stop && ret == LBFGSERR_MAXIMUMITERATION
      else !stop
    }

    /** What holds of a run wherever it stands: x is the last accepted point, costs never rose, gradient
        and padding fit x. */
    ghost predicate Standing()
      reads this, x, g
    {
      && Shape() && g[..] == obj.grad(x[..])
      && Descending(trace) && x[..] == trace[|trace|-1]
      && (PadsZero() ==> ZeroTail(x[..], live))
    }

    /** How an iteration may end: fx is the cost of the point evaluated last, which is x unless the search
        failed; in the curvature modes there is no division by zero and no search that starts uphill; a
        stop is what the tests decided. */
    ghost predicate Outcome(st: Status)
      reads this, x, g, pg
    {
      && Standing()
      && |last| == n && fx == Cost(last) && (!st.SearchFailed? ==> last == x[..])
      && (CurvatureMode(p) ==> st != Undefined && st != SearchFailed(LBFGSERR_INCREASEGRADIENT))
      && (st.Stopped? ==>
            1 <= k && Traced(k + 1) && exists ls :: 0 <= ls <= p.maxLinesearch && StopsWith(ls, true, st.ret))
    }

    lemma EvaluatedStanding(count: nat)
      requires Shape() && Evaluated() && Traced(count) && (PadsZero() ==> ZeroTail(x[..], live))
      ensures Standing() && fx == Cost(x[..]) && last == x[..]
    {
      hide CheckParams, Cost, OwlQn.PseudoGradient, Descending;
    }

    lemma ValidShape()
      requires Valid()
      ensures Shape()
    {}

    lemma ValidOutcome()
      requires Valid()
      ensures Outcome(Running)
    {
      hide CheckParams, Directed, Remembers, Evaluated, Descending;
      EvaluatedStanding(k);
    }

    /** fx is always the cost of the point of the newest evaluation; an accepted step was taken. */
    lemma LastValue(xp: Vec, d: Vec, slope: Vec, f0: real, stp0: real, ls: int)
      requires Shape() && |xp| == |d| == |slope| == n && f0 == Cost(xp)
      requires SearchEnds(xp, d, slope, f0, stp0, ls)
      ensures |last| == n && fx == Cost(last)
      ensures 0 <= ls ==> Taken(xp, d, slope, f0, stp0, step) && last == PointAt(xp, d, slope, step)
    {
      CheckedParams(n, p);
      hide CheckParams, Dot, Axpy, OwlQn.Trial, OwlQn.Regularised, OwlQn.OwlqnAccepts, OwlQn.Halved, SmoothTried,
           SmoothAccepts, Progress, Slope, IsSqrt;
    }

    lemma TurnMade(xp: Vec, gp: Vec, h: seq<Pair>, d: Vec, f0: real, stp0: real, t: real, v: Vec)
      requires Shape() && p.orthantwiseC == 0.0 && |xp| == |d| == n && AllValid(h, n)
      requires gp == obj.grad(xp) && f0 == obj.f(xp) && d == Direction(h, p.m, gp)
      requires Taken(xp, d, gp, f0, stp0, t) && v == Axpy(xp, t, d)
      ensures Turn(obj, n, p, sqrt, Waypoint(xp, h, stp0), Next(Waypoint(xp, h, stp0), v))
    {
      hide CheckParams, Direction, SmoothTried, SmoothAccepts, Dot, Axpy, IsSqrt, AllValid;
    }

    lemma SmoothPoint(xp: Vec, d: Vec, slope: Vec, t: real)
      requires Shape() && p.orthantwiseC == 0.0 && |xp| == |d| == |slope| == n
      ensures PointAt(xp, d, slope, t) == Axpy(xp, t, d)
    {}

    lemma SmoothValue(v: Vec)
      requires Shape() && p.orthantwiseC == 0.0 && |v| == n
      ensures Cost(v) == obj.f(v)
    {}

    lemma LastPoint(xp: Vec, d: Vec, slope: Vec, f0: real, stp0: real, ls: int)
      requires Shape() && |xp| == |d| == |slope| == n && SearchEnds(xp, d, slope, f0, stp0, ls)
      ensures last == if ls == LBFGSERR_INCREASEGRADIENT then xp else PointAt(xp, d, slope, step)
    {
      hide CheckParams, Searched, OrthantSearched, PointAt, IsSqrt;
    }

    lemma TraceGrows(t: seq<Vec>, ring: seq<real>, v: Vec)
      requires Shape() && Descending(t) && |v| == n && PastHolds(t, ring, |t|)
      requires Monotone() ==> Cost(v) <= Cost(t[|t|-1])
      ensures Descending(t + [v]) && PastHolds(t + [v], ring, |t|)
    {
      hide CheckParams, Cost;
    }

    /** The ring slot of the newest cost holds the cost of past iterations ago, until it is overwritten. */
    lemma RingRecords(t: seq<Vec>, ring: seq<real>, i: nat)
      requires Shape() && Descending(t) && |t| == i + 1 && PastHolds(t, ring, i) && 0 < p.past
      ensures i % p.past < |ring| && PastHolds(t, ring[i % p.past := Cost(t[i])], i + 1)
      ensures p.past <= i ==> ring[i % p.past] == Cost(t[i - p.past])
    {
      hide CheckParams, Cost;
      var m := p.past;
      if m <= i { ModWindow(i - m, m, m); }
      forall j | 0 <= j < i && i + 1 - m <= j ensures j % m != i % m {
        ModWindow(j, i - j, m);
      }
    }

    /** The current point and gradient, kept for a search that fails. */
    method SavePoint()
      requires Valid()
      modifies `xp, `gp
      ensures Valid() && xp == x[..] && gp == g[..]
    {
      hide CheckParams, Cost, Dot, Descending, PastHolds, IsSqrt, Direction, OwlQn.Restrict;
      xp, gp := x[..], g[..];
    }

    /** The line search call; on an error, x and g go back to the previous point, fx does not. */
    method Search() returns (ls: int)
      requires Valid()
      modifies x, g, w, pg, `fx, `step, `xp, `gp, `trace, `last
      ensures xp == old(x[..]) && gp == old(g[..])
      ensures SearchEnds(xp, d[..], old(SlopeAt()), old(fx), old(step), ls)
      ensures if ls < 0 then trace == old(trace)
              else trace == old(trace) + [x[..]] && Traced(k + 1) && PastHolds(trace, pf, k)
      ensures CurvatureMode(p) ==> ls != LBFGSERR_INCREASEGRADIENT
      ensures ls < 0 ==> x[..] == old(x[..]) && g[..] == old(g[..])
      ensures 0 <= ls ==> Evaluated() && ls <= p.maxLinesearch
      ensures 0 <= ls && Monotone() ==> fx <= old(fx)
      ensures 0 <= ls && p.orthantwiseC == 0.0 ==> x[..] == Axpy(xp, step, d[..])
      ensures 0 <= ls && CurvatureMode(p) ==> 0.0 < step && Dot(gp, d[..]) < Dot(g[..], d[..])
      ensures 0 <= ls && PadsZero() ==> ZeroTail(x[..], live)
    {
      hide CheckParams, Dot, Axpy, Mul, Direction, RingHolds, PositiveCurvature, OwlQn.PseudoGradient,
           OwlQn.Constrained, Cost, Descending, PastHolds, IsSqrt, AllValid, Searched, OrthantSearched, Progress,
           OwlQn.Trial, Directed, Remembers, TailsZero, PadsZero, Monotone;
      SavePoint();
      if p.orthantwiseC == 0.0 {
        ls := SmoothSearch();
      } else {
        ls := OrthantSearch();
      }
      if ls < 0 {
        VecCpy(x, xp);
        VecCpy(g, gp);
      } else {
        TraceGrows(trace, pf, x[..]);
        trace := trace + [x[..]];
      }
    }

    method SmoothSearch() returns (ls: int)
      requires Valid() && p.orthantwiseC == 0.0 && xp == x[..] && gp == g[..]
      modifies x, g, `fx, `step, `last
      ensures Searched(obj, p, xp, d[..], old(fx), Dot(gp, d[..]), sqrt, old(step), ls, fx, step)
      ensures last == if ls == LBFGSERR_INCREASEGRADIENT then xp else Axpy(xp, step, d[..])
      ensures CurvatureMode(p) ==> ls != LBFGSERR_INCREASEGRADIENT
      ensures 0 <= ls ==> Evaluated() && ls <= p.maxLinesearch
      ensures 0 <= ls ==> fx <= old(fx)
      ensures 0 <= ls && CurvatureMode(p) ==> 0.0 < step && Dot(gp, d[..]) < Dot(g[..], d[..])
      ensures 0 <= ls && PadsZero() ==> ZeroTail(x[..], live)
    {
      hide CheckParams, Dot, CurvatureMode, Axpy, Direction, RingHolds, PositiveCurvature, IsSqrt, Descending,
           PastHolds, SmoothTried, SmoothAccepts, Slope;
      ls, fx, step := SmoothLineSearch(x, fx, g, d[..], step, xp, obj, p, sqrt);
      last := if ls == LBFGSERR_INCREASEGRADIENT then xp else Axpy(xp, step, d[..]);
      if 0 <= ls { OnLine(obj, xp, d[..], step); }
      if PadsZero() { KernelsPadded(d[..], xp, step, live); }
    }

    /** What the orthant-wise search relies on. */
    lemma OrthantReady()
      requires Valid() && p.orthantwiseC != 0.0
      ensures Shape() && OwlQn.Constrained(d[..], pg[..], rStart, rEnd) && 0.0 < step && fx == Cost(x[..])
      ensures PadsZero() ==> ZeroTail(x[..], live) && ZeroTail(d[..], live)
    {
      hide CheckParams, OwlQn.Constrained, OwlQn.Restrict, Direction, RingHolds, PositiveCurvature, IsSqrt;
      OwlQn.RestrictExact(Direction(hist, lm.Length, pg[..]), pg[..], rStart, rEnd);
    }

    lemma OrthantShape()
      requires Shape()
      ensures CheckParams(n, p) == 0 && x.Length == g.Length == d.Length == w.Length == pg.Length == n
      ensures x != g && x != d && x != w && x != pg && g != d && g != w && g != pg && d != w && d != pg && w != pg
      ensures rStart <= n && rEnd <= n && IsObjective(obj, n)
    {}

    lemma OrthantEvaluated()
      requires Shape() && p.orthantwiseC != 0.0 && g[..] == obj.grad(x[..]) && last == x[..]
      requires fx == OwlQn.Regularised(obj, p.orthantwiseC, rStart, rEnd, x[..])
      requires pg[..] == OwlQn.PseudoGradient(x[..], g[..], p.orthantwiseC, rStart, rEnd)
      ensures Evaluated()
    {
      hide CheckParams, IsSqrt, OwlQn.Regularised, OwlQn.PseudoGradient;
    }

    /** An accepted trial does not raise the cost where that is guaranteed, and keeps the padding. */
    lemma OrthantStep(xp: Vec, dir: Vec, slope: Vec, f0: real, stp0: real, ls: int, f: real, stp: real)
      requires Shape() && p.orthantwiseC != 0.0 && |xp| == |dir| == |slope| == n && 0.0 < stp
      requires OwlQn.Constrained(dir, slope, rStart, rEnd)
      requires PadsZero() ==> ZeroTail(xp, live) && ZeroTail(dir, live)
      requires OrthantSearched(obj, p, xp, dir, f0, slope, rStart, rEnd, stp0, ls, f, stp)
      ensures ls != LBFGSERR_INCREASEGRADIENT && ls <= p.maxLinesearch
      ensures f == OwlQn.Regularised(obj, p.orthantwiseC, rStart, rEnd, OwlQn.Trial(xp, dir, slope, rStart, rEnd, stp))
      ensures 0 <= ls && Monotone() ==> f <= f0
      ensures PadsZero() ==> ZeroTail(OwlQn.Trial(xp, dir, slope, rStart, rEnd, stp), live)
    {
      CheckedParams(n, p);
      hide CheckParams, Dot, Mul, OwlQn.Constrained, OwlQn.Regularised, OwlQn.OwlqnAccepts, OwlQn.Trial, OwlQn.Halved,
           IsSqrt, PadsZero;
      if 0 <= ls && Monotone() { OwlqnMonotone(obj, p, xp, dir, slope, rEnd, f0, stp); }
      if PadsZero() { TrialTail(xp, dir, slope, rStart, rEnd, stp, live); }
    }

    method OrthantSearch() returns (ls: int)
      requires Valid() && p.orthantwiseC != 0.0 && xp == x[..] && gp == g[..]
      modifies x, g, w, pg, `fx, `step, `last
      ensures OrthantSearched(obj, p, xp, d[..], old(fx), old(pg[..]), rStart, rEnd, old(step), ls, fx, step)
      ensures ls != LBFGSERR_INCREASEGRADIENT && last == OwlQn.Trial(xp, d[..], old(pg[..]), rStart, rEnd, step)
      ensures 0 <= ls ==> Evaluated() && ls <= p.maxLinesearch
      ensures 0 <= ls && Monotone() ==> fx <= old(fx)
      ensures 0 <= ls && PadsZero() ==> ZeroTail(x[..], live)
    {
      hide *;
      OrthantReady();
      OrthantShape();
      CheckedParams(n, p);
      ghost var dir, slope, f0, stp0 := d[..], pg[..], fx, step;
      ls, fx, step := OrthantLineSearch(x, fx, g, d[..], step, xp, pg, w, obj, p, rStart, rEnd);
      last := x[..];
      OrthantStep(xp, dir, slope, f0, stp0, ls, fx, step);
      OrthantEvaluated();
    }

    /** Norms of the variables and of the (pseudo-)gradient. */
    method Norms() returns (xnorm: real, gnorm: real)
      requires Shape()
      ensures xnorm == Norm(x[..], sqrt) && gnorm == GradientNorm()
    {
      hide Norm;
      xnorm := Vec2Norm(x[..], sqrt);
      if p.orthantwiseC == 0.0 {
        gnorm := Vec2Norm(g[..], sqrt);
      } else {
        gnorm := Vec2Norm(pg[..], sqrt);
      }
    }

    /** Compare with the cost of past iterations ago, and record the new one in its place. */
    method PastTest() returns (stalled: bool)
      requires Shape() && Traced(k + 1) && fx == Cost(trace[k]) && PastHolds(trace, pf, k)
      modifies `pf
      ensures stalled <==> Stalled()
      ensures |pf| == p.past && (!stalled ==> PastHolds(trace, pf, k + 1))
    {
      hide CheckParams, Dot, Norm, Cost, Descending, IsSqrt;
      if 0 < p.past {
        RingRecords(trace, pf, k);
        if p.past <= k {
          if fx != 0.0 && Abs((pf[k % p.past] - fx) / fx) < p.delta { return true; }
        }
        pf := pf[k % p.past := fx];
      }
      return false;
    }

    /** Progress report, convergence, past-improvement and iteration-count tests, in that order. */
    method CheckStop(ls: int) returns (stop: bool, ret: int)
      requires Shape() && Evaluated() && Traced(k + 1) && PastHolds(trace, pf, k)
      modifies `pf
      ensures StopsWith(ls, stop, ret)
      ensures |pf| == p.past && (!stop ==> PastHolds(trace, pf, k + 1))
    {
      assert fx == Cost(trace[k]);
      hide CheckParams, Dot, Norm, GradientNorm, Stalled, Cost, Descending, Evaluated;
      var xnorm, gnorm := Norms();
      assert |pf| == p.past;
      hide PastHolds;
      ret := progress(x[..], g[..], fx, xnorm, gnorm, step, k, ls);
      if ret != 0 { return true, ret; }
      if xnorm < 1.0 { xnorm := 1.0; }
      if gnorm / xnorm <= p.epsilon { return true, LBFGS_SUCCESS; }
      var stalled := PastTest();
      if stalled { return true, LBFGS_STOP; }
      if p.maxIterations != 0 && p.maxIterations < k + 1 { return true, LBFGSERR_MAXIMUMITERATION; }
      return false, 0;
    }

    /** Enter the newest correction into the ring buffer; false when its curvature is zero. */
    method StoreCorrection() returns (ok: bool, ys: real, yy: real)
      requires Shape() && Remembers() && |xp| == n && |gp| == n
      requires CurvatureMode(p) ==> x[..] == Axpy(xp, step, d[..]) && 0.0 < step && Dot(gp, d[..]) < Dot(g[..], d[..])
      modifies lm, `end, `k, `hist
      ensures CurvatureMode(p) ==> ok
      ensures !ok ==> hist == old(hist)
      ensures ok ==> Remembers() && hist == old(hist) + [Pair(Sub(x[..], xp), Sub(g[..], gp))]
      ensures ok ==> ys == Dot(Sub(g[..], gp), Sub(x[..], xp)) && yy == Dot(Sub(g[..], gp), Sub(g[..], gp)) && yy != 0.0
    {
      hide CheckParams, Dot, Axpy, Mul, IsObjective;
      var s, y := new real[n], new real[n];
      VecDiff(s, x[..], xp);
      VecDiff(y, g[..], gp);
      ys := VecDot(y[..], s[..]);
      yy := VecDot(y[..], y[..]);
      if CurvatureMode(p) {
        CurvatureOfStep(xp, d[..], step, g[..], gp);
        PositiveProduct(step, Dot(g[..], d[..]) - Dot(gp, d[..]));
      }
      ghost var lm0, e := lm[..], lm[end].(s := s[..], y := y[..], ys := ys);
      lm[end] := lm[end].(s := s[..], y := y[..], ys := ys);
      if ys == 0.0 { return false, ys, yy; }
      YNotZero(s[..], y[..]);
      RingPush(lm0, end, hist, n, e);
      assert lm[..] == lm0[end := e];
      hide RingHolds;
      k := k + 1;
      end := RingNext(end, lm.Length);
      hist := hist + [Pair(s[..], y[..])];
      return true, ys, yy;
    }

    /** The two loops over the newest bound corrections. */
    method Bend(scale: real, bound: nat)
      requires Shape() && Remembers() && bound <= |hist| && bound <= lm.Length
      modifies d, lm
      ensures Remembers() && AllValid(Newest(hist, bound), n)
      ensures d[..] == MatVec(InverseHessian(Newest(hist, bound), scale, n), old(d[..]))
    {
      hide CheckParams, Dot, IsObjective, MatVec, InverseHessian, RingValid, RingHolds, RingPairs, SameButAlpha,
           PositiveCurvature;
      RingNewest(lm[..], end, hist, n, bound);
      ghost var lm0 := lm[..];
      ApplyTwoLoop(d, lm, end, bound, scale);
      RingSameButAlpha(lm0, lm[..], end, hist, n);
    }

    /** Steepest descent, bent by the newest min(m, k) corrections; step 1 is tried first. */
    method NewDirection(ys: real, yy: real, ghost tails: bool)
      requires Shape() && Evaluated() && Remembers() && |hist| > 0 && yy != 0.0
      requires ys == Dot(hist[|hist|-1].y, hist[|hist|-1].s) && yy == Dot(hist[|hist|-1].y, hist[|hist|-1].y)
      requires CurvatureMode(p) ==> g[..] != Zero(n)
      requires tails ==> ZeroTail(if p.orthantwiseC == 0.0 then g[..] else pg[..], live)
      requires tails ==> forall i :: 0 <= i < |hist| ==> PairTail(hist[i], live)
      modifies d, lm, `step
      ensures Remembers() && Directed() && step == 1.0
      ensures tails ==> ZeroTail(d[..], live)
    {
      hide CheckParams, Dot, Mul, IsObjective, MatVec, InverseHessian, OwlQn.PseudoGradient, RingHolds,
           PositiveCurvature, OwlQn.Restrict, Direction, Newest, IsSqrt;
      var m := lm.Length;
      var bound := if m <= k - 1 then m else k - 1;
      if p.orthantwiseC == 0.0 {
        VecNCpy(d, g[..]);
      } else {
        VecNCpy(d, pg[..]);
      }
      ghost var d0 := d[..];
      Bend(ys / yy, bound);
      if tails { NewestTail(hist, bound, ys / yy, d0, live); }
      DirectionIs(hist, m, SlopeAt(), bound, ys, yy);
      if p.orthantwiseC != 0.0 {
        ghost var d1 := d[..];
        OwlQn.ConstrainDirection(d, pg[..], rStart, rEnd);
        if tails { RestrictTail(d1, pg[..], rStart, rEnd, live); }
      }
      if CurvatureMode(p) { DirectionDescent(hist, m, g[..]); }
      step := 1.0;
    }

    /** Allocation of the working space. */
    constructor (n: nat, x: array<real>, obj: Objective, p: Params, sqrt: real -> real,
                 progress: ProgressCallback, ghost live: nat)
      requires CheckParams(n, p) == 0 && 0 < p.m && x.Length == n && IsObjective(obj, n) && IsSqrt(sqrt)
      requires live <= n
      ensures this.n == n && this.x == x && this.p == p && this.obj == obj && this.sqrt == sqrt
      ensures this.progress == progress && this.live == live
      ensures rStart == p.orthantwiseStart && rEnd == if p.orthantwiseEnd < 0 then n else p.orthantwiseEnd
      ensures fresh(g) && fresh(d) && fresh(w) && fresh(pg) && fresh(lm)
      ensures Shape() && Remembers() && hist == []
    {
      CheckedParams(n, p);
      this.n, this.p, this.obj, this.sqrt, this.progress := n, p, obj, sqrt, progress;
      this.rStart := p.orthantwiseStart;
      this.rEnd := if p.orthantwiseEnd < 0 then n else p.orthantwiseEnd;
      this.live := live;
      this.x := x;
      g, d, w, pg := new real[n], new real[n], new real[n], new real[n];
      lm := new IterationData[p.m](_ => IterationData(0.0, Zero(n), Zero(n), 0.0));
      xp, gp, pf := [], [], seq(p.past, i => 0.0);
      fx, step, k, end := 0.0, 0.0, 1, 0;
      hist, trace, last := [], [], [];
    }

    lemma FirstTrace(v: Vec, ring: seq<real>)
      requires Shape() && |v| == n && |ring| == p.past && (0 < p.past ==> ring[0] == Cost(v))
      ensures Descending([v]) && PastHolds([v], ring, 1)
    {
      hide CheckParams, Cost;
      if 0 < p.past { ModOf(0, p.past, 0, 0); }
    }

    /** The first evaluation: value, gradient and pseudo-gradient at the starting point. */
    method EvaluateHere()
      requires Shape() && ZeroTail(x[..], live)
      modifies g, pg, `fx, `last
      ensures Evaluated()
      ensures PadsZero() ==> ZeroTail(g[..], live) && (p.orthantwiseC != 0.0 ==> ZeroTail(pg[..], live))
    {
      CheckedParams(n, p);
      hide CheckParams, Dot, Mul, OwlQn.PseudoGradient, IsObjective, OwlQn.L1, OwlQn.Range;
      fx, last := obj.f(x[..]), x[..];
      VecCpy(g, obj.grad(x[..]));
      if p.orthantwiseC != 0.0 {
        var xnorm := OwlQn.X1Norm(x[..], rStart, rEnd);
        fx := fx + Mul(xnorm, p.orthantwiseC);
        OwlQn.ComputePseudoGradient(pg, x[..], g[..], p.orthantwiseC, rStart, rEnd);
        PseudoTail(x[..], g[..], p.orthantwiseC, rStart, rEnd, live);
      }
    }

    /** ... the first entry of pf, and the steepest descent direction. */
    method EvaluateFirst()
      requires Shape() && Remembers() && hist == []
      requires ZeroTail(x[..], live)
      modifies g, d, pg, `fx, `pf, `trace, `last
      ensures Evaluated() && Remembers()
      ensures Traced(1) && PastHolds(trace, pf, 1)
      ensures d[..] == Neg(if p.orthantwiseC == 0.0 then g[..] else pg[..])
      ensures PadsZero() ==> TailsZero()
    {
      hide CheckParams, Dot, Mul, OwlQn.PseudoGradient, IsObjective, RingHolds, Descending, PastHolds, Cost;
      EvaluateHere();
      if 0 < p.past { pf := pf[0 := fx]; }
      trace := [x[..]];
      FirstTrace(x[..], pf);
      if p.orthantwiseC == 0.0 {
        VecNCpy(d, g[..]);
      } else {
        VecNCpy(d, pg[..]);
      }
    }

    /** The test before the first iteration, and the first step length. */
    method Start() returns (minimized: bool)
      requires Shape() && Evaluated() && Remembers() && hist == []
      requires d[..] == Neg(if p.orthantwiseC == 0.0 then g[..] else pg[..])
      requires PadsZero() ==> TailsZero()
      requires Traced(1) && PastHolds(trace, pf, 1)
      modifies `step
      ensures Evaluated() && Traced(1) && (minimized <==> Converged())
      ensures !minimized ==> Valid() && Norm(d[..], sqrt) != 0.0 && step == 1.0 / Norm(d[..], sqrt)
    {
      hide CheckParams, Dot, IsObjective, OwlQn.PseudoGradient, RingHolds, Descending, PastHolds, Cost;
      CheckedParams(n, p);
      ghost var v := if p.orthantwiseC == 0.0 then g[..] else pg[..];
      var xnorm, gnorm := Norms();
      if xnorm < 1.0 { xnorm := 1.0; }
      if gnorm / xnorm <= p.epsilon { return true; }
      NonZeroRatio(gnorm, xnorm, p.epsilon);
      NormFacts(v, sqrt);
      NormNeg(v, sqrt);
      step := Vec2NormInv(d[..], sqrt);
      PositiveInverse(Norm(d[..], sqrt));
      OwlQn.SteepestConstrained(v, rStart, rEnd);
      if CurvatureMode(p) { DirectionDescent(hist, lm.Length, g[..]); }
      return false;
    }

    /** The correction of an accepted step, and the direction it leads to. */
    method Correct() returns (ok: bool)
      requires Shape() && Evaluated() && Remembers() && |xp| == n && |gp| == n
      requires CurvatureMode(p) ==> x[..] == Axpy(xp, step, d[..]) && 0.0 < step && Dot(gp, d[..]) < Dot(g[..], d[..])
      requires CurvatureMode(p) ==> g[..] != Zero(n)
      requires PadsZero() ==> ZeroTail(x[..], live) && ZeroTail(xp, live) && ZeroTail(gp, live)
      requires PadsZero() ==> forall i :: 0 <= i < |hist| ==> PairTail(hist[i], live)
      requires Traced(k + 1) && PastHolds(trace, pf, k + 1)
      modifies d, lm, `end, `k, `hist, `step
      ensures hist == if ok then old(hist) + [old(Pair(Sub(x[..], xp), Sub(g[..], gp)))] else old(hist)
      ensures CurvatureMode(p) ==> ok
      ensures ok ==> Valid() && k == old(k) + 1 && step == 1.0
    {
      hide CheckParams, Dot, Axpy, Mul, Direction, RingHolds, PositiveCurvature, IsObjective,
           OwlQn.PseudoGradient, OwlQn.Constrained, Cost, Sub, Descending, PastHolds;
      ghost var tails := PadsZero();
      if tails { TailsAfterSearch(); }
      var ys, yy;
      ok, ys, yy := StoreCorrection();
      if ok { NewDirection(ys, yy, tails); }
    }

    /** What follows an accepted step: the tests, then the correction and the next direction. */
    method Advance(ls: int) returns (st: Status)
      requires Shape() && Evaluated() && Remembers() && |xp| == n && |gp| == n && 0 <= ls <= p.maxLinesearch
      requires Traced(k + 1) && PastHolds(trace, pf, k)
      requires CurvatureMode(p) ==> x[..] == Axpy(xp, step, d[..]) && 0.0 < step && Dot(gp, d[..]) < Dot(g[..], d[..])
      requires PadsZero() ==> ZeroTail(x[..], live) && ZeroTail(xp, live) && ZeroTail(gp, live)
      requires PadsZero() ==> forall i :: 0 <= i < |hist| ==> PairTail(hist[i], live)
      modifies d, lm, `pf, `end, `k, `hist, `step
      ensures hist == if st == Running then old(hist) + [old(Pair(Sub(x[..], xp), Sub(g[..], gp)))] else old(hist)
      ensures Outcome(st) && !st.SearchFailed?
      ensures st == Running ==> Valid() && k == old(k) + 1 && step == 1.0
      ensures st == Running && p.maxIterations != 0 ==> k <= p.maxIterations
    {
      hide CheckParams, Dot, Axpy, Mul, Direction, RingHolds, PositiveCurvature, IsObjective,
           OwlQn.PseudoGradient, OwlQn.Constrained, Descending, PastHolds, Cost, StopsWith, Sub, Converged,
           PadsZero, ZeroTail, IsSqrt;
      EvaluatedStanding(k + 1);
      var stop, ret := CheckStop(ls);
      if stop { return Stopped(ret); }
      GoesOn(ls, ret);
      if p.orthantwiseC == 0.0 { NotConverged(); }
      var ok := Correct();
      return if ok then Running else Undefined;
    }

    /** One turn of the main loop. */
    method Iterate() returns (st: Status)
      requires Valid()
      modifies this, x, g, d, w, pg, lm
      ensures Outcome(st)
      ensures st == Running ==> Valid() && k == old(k) + 1 && step == 1.0
      ensures st == Running && p.maxIterations != 0 ==> k <= p.maxIterations
      ensures trace == if st.SearchFailed? then old(trace) else old(trace) + [x[..]]
      ensures !st.SearchFailed? && p.orthantwiseC == 0.0 ==>
                Turn(obj, n, p, sqrt, old(Here()), Next(old(Here()), x[..]))
      ensures st == Running ==> Here() == Next(old(Here()), x[..])
      ensures !st.SearchFailed? ==>
                exists t :: Taken(old(x[..]), old(d[..]), old(SlopeAt()), old(fx), old(step), t)
                            && x[..] == PointAt(old(x[..]), old(d[..]), old(SlopeAt()), t)
      ensures st.SearchFailed? ==> x[..] == old(x[..]) && g[..] == old(g[..])
      ensures st.SearchFailed? ==> SearchEnds(x[..], old(d[..]), old(SlopeAt()), old(fx), old(step), st.ret)
      ensures st.SearchFailed? ==>
                (fx == Cost(x[..]) <==>
                 st.ret == LBFGSERR_INCREASEGRADIENT
                 || Cost(PointAt(x[..], old(d[..]), old(SlopeAt()), step)) == Cost(x[..]))
      ensures hist == if st == Running then old(hist) + [Pair(Sub(x[..], old(x[..])), Sub(g[..], old(g[..])))]
                      else old(hist)
    {
      hide CheckParams, Dot, Axpy, Mul, Direction, RingHolds, PositiveCurvature, IsObjective,
           OwlQn.PseudoGradient, OwlQn.Constrained, Descending, PastHolds, Cost, StopsWith, Sub, SearchEnds, Taken,
           PointAt, Turn;
      ghost var dir, slope, f0, h, stp0 := d[..], SlopeAt(), fx, hist, step;
      ValidOutcome();
      var ls := Search();
      LastValue(xp, dir, slope, f0, stp0, ls);
      if ls < 0 {
        LastPoint(xp, dir, slope, f0, stp0, ls);
        return SearchFailed(ls);
      }
      if p.orthantwiseC == 0.0 {
        SmoothPoint(xp, dir, slope, step);
        SmoothValue(xp);
        TurnMade(xp, gp, h, dir, f0, stp0, step, x[..]);
      }
      st := Advance(ls);
    }

    lemma GoesOn(ls: int, ret: int)
      requires Shape() && Traced(k + 1) && StopsWith(ls, false, ret)
      ensures !Converged() && (p.maxIterations != 0 ==> k + 1 <= p.maxIterations)
    {}

    lemma NotConverged()
      requires Shape() && !Converged() && p.orthantwiseC == 0.0
      ensures g[..] != Zero(n)
    {
      CheckedParams(n, p);
      NormFacts(g[..], sqrt);
      if g[..] == Zero(n) { ZeroRatio(GradientNorm(), Max2(1.0, Norm(x[..], sqrt))); }
    }

    /** The gradient test, without norms and quotients. */
    lemma ConvergedExact()
      requires Shape()
      ensures Converged() <==> Dot(SlopeAt(), SlopeAt()) <= Mul(Mul(p.epsilon, p.epsilon), Max2(1.0, Dot(x[..], x[..])))
    {
      CheckedParams(n, p);
      NormFacts(SlopeAt(), sqrt);
      NormFacts(x[..], sqrt);
      hide CheckParams, Norm, Dot, IsSqrt;
      RatioTest(GradientNorm(), Norm(x[..], sqrt), p.epsilon, Dot(SlopeAt(), SlopeAt()), Dot(x[..], x[..]));
    }

    /** The improvement test, without a quotient. */
    lemma StalledExact()
      requires Shape() && Traced(k + 1)
      ensures Stalled() <==>
              0 < p.past <= k && fx != 0.0
              && Max2(Cost(trace[k - p.past]) - fx, fx - Cost(trace[k - p.past])) < Mul(p.delta, Max2(fx, -fx))
    {
      hide CheckParams, Cost, IsSqrt;
      if 0 < p.past <= k && fx != 0.0 { RelativeChange(Cost(trace[k - p.past]) - fx, fx, p.delta); }
    }

    lemma TailsAfterSearch()
      requires Shape() && Evaluated() && PadsZero() && |xp| == n && |gp| == n
      requires ZeroTail(x[..], live) && ZeroTail(xp, live) && ZeroTail(gp, live)
      ensures ZeroTail(g[..], live) && PairTail(Pair(Sub(x[..], xp), Sub(g[..], gp)), live)
      ensures p.orthantwiseC != 0.0 ==> ZeroTail(pg[..], live)
    {
      CheckedParams(n, p);
      hide CheckParams, Dot, Mul;
      KernelsPadded(x[..], xp, 0.0, live);
      KernelsPadded(g[..], gp, 0.0, live);
    }
  }

  lemma RatioTest(a: real, b: real, eps: real, aa: real, bb: real)
    requires 0.0 <= a && 0.0 <= b && 0.0 <= eps && a * a == aa && b * b == bb
    ensures a / Max2(1.0, b) <= eps <==> aa <= Mul(Mul(eps, eps), Max2(1.0, bb))
  {
    var m := Max2(1.0, b);
    var q := a / m;
    assert q * m == a;
    if 1.0 <= b { SquareMono(1.0, b); } else { SquareMono(b, 1.0); }
    assert m * m == Max2(1.0, bb);
    var em := MulNonNeg(eps, m);
    assert em * em == Mul(Mul(eps, eps), m * m);
    if q <= eps {
      var s := MulNonNeg(eps - q, m);
      SquareMono(a, em);
    } else {
      var s := MulPos(q - eps, m);
      SquareMonoStrict(em, a);
    }
  }

  lemma RelativeChange(c: real, f: real, delta: real)
    requires f != 0.0
    ensures Abs(c / f) < delta <==> Max2(c, -c) < Mul(delta, Max2(f, -f))
  {
    var q, m := c / f, Max2(f, -f);
    assert q * f == c;
    var a := Abs(q);
    assert a * m == Max2(c, -c) by {
      assert q * f == (-q) * (-f);
      if 0.0 <= q { var s := MulNonNeg(q, m); } else { var s := MulNonNeg(-q, m); }
    }
    if a < delta { var s := MulPos(delta - a, m); } else { var s := MulNonNeg(a - delta, m); }
  }

  /** Two indices less than m apart fall into different slots, m apart into the same. */
  lemma ModWindow(j: nat, gap: nat, m: nat)
    requires 0 < gap <= m
    ensures (j + gap) % m == j % m <==> gap == m
  {
    var q, r := j / m, j % m;
    assert j == m * q + r;
    if gap == m {
      ModOf(j + gap, m, q + 1, r);
    } else if r + gap < m {
      ModOf(j + gap, m, q, r + gap);
    } else {
      ModOf(j + gap, m, q + 1, r + gap - m);
    }
  }

  lemma ModOf(a: nat, m: nat, q: nat, r: nat)
    requires r < m && a == m * q + r
    ensures a % m == r
  {
    var q', r' := a / m, a % m;
    assert m * (q' - q) == r - r';
    if q' > q { MulAtLeast(m, q' - q); }
    if q' < q { MulAtLeast(m, q - q'); }
  }

  lemma MulAtLeast(m: nat, c: nat)
    requires 1 <= c
    ensures m <= m * c
  {}

  lemma RestrictTail(d: Vec, pg: Vec, start: nat, end: nat, live: nat)
    requires |d| == |pg| && start <= |d| && end <= |d| && ZeroTail(d, live)
    ensures ZeroTail(OwlQn.Restrict(d, pg, start, end), live)
  {}

  lemma PseudoTail(x: Vec, g: Vec, c: real, start: nat, end: nat, live: nat)
    requires |x| == |g| && start <= |x| && end <= |x| && 0.0 <= c && ZeroTail(x, live)
    ensures ZeroTail(g, live) ==> ZeroTail(OwlQn.PseudoGradient(x, g, c, start, end), live)
  {}

  lemma NonZeroRatio(a: real, b: real, eps: real)
    requires 1.0 <= b && 0.0 <= eps < a / b
    ensures a != 0.0
  {
    if a == 0.0 { ZeroRatio(a, b); }
  }

  lemma NormNeg(v: Vec, sqrt: real -> real)
    ensures Norm(Neg(v), sqrt) == Norm(v, sqrt)
  {
    DotNeg(v, Neg(v));
    DotSymmetric(v, Neg(v));
    DotNeg(v, v);
  }

  lemma PositiveInverse(a: real)
    requires 0.0 < a
    ensures 0.0 < 1.0 / a
  {}

  lemma ZeroRatio(a: real, b: real)
    requires a == 0.0 && 1.0 <= b
    ensures a / b == 0.0
  {}

  /** An accepted orthant-wise step does not raise the regularised objective. */
  lemma OwlqnMonotone(obj: Objective, p: Params, xp: Vec, s: Vec, pg: Vec, end: nat, f0: real, t: real)
    requires |xp| == |s| == |pg| && end <= |s| && 0.0 < t && 0.0 <= p.ftol
    requires OwlQn.Constrained(s, pg, 0, end) && ZeroTail(s, end)
    requires OwlQn.OwlqnAccepts(obj, xp, s, pg, f0, p, 0, end, t)
    ensures OwlQn.Regularised(obj, p.orthantwiseC, 0, end, OwlQn.Trial(xp, s, pg, 0, end, t)) <= f0
  {
    hide Dot, OwlQn.Trial, OwlQn.Constrained, OwlQn.Regularised;
    OwlQn.TrialDescends(xp, s, pg, end, t);
    var a := MulNonNeg(p.ftol, -Dot(Sub(OwlQn.Trial(xp, s, pg, 0, end, t), xp), pg));
  }

  lemma TrialTail(xp: Vec, s: Vec, pg: Vec, start: nat, end: nat, t: real, live: nat)
    requires |xp| == |s| == |pg| && start <= |xp| && end <= |xp|
    requires ZeroTail(xp, live) && ZeroTail(s, live)
    ensures ZeroTail(OwlQn.Trial(xp, s, pg, start, end, t), live)
  {
    assert Mul(t, 0.0) == 0.0;
    hide Mul;
  }

  lemma OnePoint(obj: Objective, n: nat, p: Params, sqrt: real -> real, a: Waypoint)
    ensures Turns(obj, n, p, sqrt, [a])
  {}

  lemma OneMore(obj: Objective, n: nat, p: Params, sqrt: real -> real, path: seq<Waypoint>, b: Waypoint)
    requires Turns(obj, n, p, sqrt, path) && Turn(obj, n, p, sqrt, path[|path| - 1], b)
    ensures Turns(obj, n, p, sqrt, path + [b])
  {
    hide Turn;
  }

  /** A run of at most fuel iterations, for any fuel: every prefix of every run. */
  method Run(o: Optimizer, fuel: nat) returns (st: Status, ghost path: seq<Waypoint>)
    requires o.Valid()
    modifies o, o.x, o.g, o.d, o.w, o.pg, o.lm
    ensures o.Outcome(st) && old(o.trace) <= o.trace
    ensures st == Running ==> o.Valid() && o.k == old(o.k) + fuel
    ensures st == Running && o.p.maxIterations != 0 && 0 < fuel ==> o.k <= o.p.maxIterations
    ensures o.p.orthantwiseC == 0.0 ==> Turns(o.obj, o.n, o.p, o.sqrt, path)
    ensures |path| > 0 && path[0] == old(o.Here()) && path[|path| - 1].x == o.x[..]
  {
    hide *;
    st := Running;
    path := [o.Here()];
    OnePoint(o.obj, o.n, o.p, o.sqrt, o.Here());
    o.ValidOutcome();
    var i := 0;
    while i < fuel && st == Running
      invariant 0 <= i <= fuel
      invariant o.Outcome(st) && old(o.trace) <= o.trace
      invariant st == Running ==> o.Valid() && o.k == old(o.k) + i
      invariant st == Running && o.p.maxIterations != 0 && 0 < i ==> o.k <= o.p.maxIterations
      invariant o.p.orthantwiseC == 0.0 ==> Turns(o.obj, o.n, o.p, o.sqrt, path)
      invariant |path| > 0 && path[0] == old(o.Here()) && path[|path| - 1].x == o.x[..]
      invariant st == Running ==> path[|path| - 1] == o.Here()
    {
      o.ValidShape();
      ghost var a := o.Here();
      st := o.Iterate();
      if !st.SearchFailed? {
        if o.p.orthantwiseC == 0.0 { OneMore(o.obj, o.n, o.p, o.sqrt, path, o.Next(a, o.x[..])); }
        path := path + [o.Next(a, o.x[..])];
      }
      i := i + 1;
    }
  }

  /** Everything before the first iteration. */
  method Begin(o: Optimizer) returns (minimized: bool)
    requires o.Shape() && o.Remembers() && o.hist == [] && ZeroTail(o.x[..], o.live)
    modifies o.g, o.d, o.pg, o`fx, o`pf, o`trace, o`last, o`step
    ensures o.trace == [o.x[..]]
    ensures minimized ==> MinimizedAtStart(o, Stopped(LBFGS_ALREADY_MINIMIZED))
    ensures !minimized ==> o.Valid() && (o.p.orthantwiseC == 0.0 ==> o.Here() == StartPoint(o.obj, o.x[..], o.sqrt))
  {
    hide CheckParams, CurvatureMode, ZeroTail, IsObjective, IsSqrt, Neg, Optimizer.Evaluated, Optimizer.Here,
         Optimizer.Remembers, Optimizer.Directed, Optimizer.TailsZero, Optimizer.Valid, Optimizer.Cost,
         Optimizer.Converged, Optimizer.PadsZero, Optimizer.Monotone, Optimizer.Traced, Optimizer.StopsWith,
         Optimizer.Descending, Optimizer.PastHolds, Optimizer.Outcome, StartPoint, MinimizedAtStart, Norm;
    o.EvaluateFirst();
    minimized := o.Start();
    FirstFacts(o);
    if !minimized { FirstWaypoint(o); }
  }

  /** lbfgs(): with fuel bounding the number of iterations looked at. Every exit returns the starting
      point or an accepted iterate, whose cost is no higher than that of any accepted before. */
  method Lbfgs(n: int, x: array<real>, obj: Objective, progress: ProgressCallback, p: Params,
               sqrt: real -> real, ghost live: nat, fuel: nat)
    returns (st: Status, fx: real, ghost o: Optimizer?, ghost path: seq<Waypoint>)
    requires 0 < n ==> x.Length == n
    requires 0 < p.m && IsObjective(obj, x.Length) && IsSqrt(sqrt)
    requires live <= x.Length && ZeroTail(x[..], live)
    modifies x
    ensures CheckParams(n, p) != 0 ==> st == Stopped(CheckParams(n, p)) && x[..] == old(x[..])
    ensures CheckParams(n, p) == 0 ==> o != null && o.x == x && o.p == p && o.obj == obj && o.live == live && o.fx == fx
    ensures CheckParams(n, p) == 0 ==> [old(x[..])] <= o.trace
    ensures CheckParams(n, p) == 0 ==> MinimizedAtStart(o, st) || o.Outcome(st)
    ensures CheckParams(n, p) == 0 && 0 < p.maxIterations <= fuel ==> st != Running
    ensures CheckParams(n, p) == 0 && p.orthantwiseC == 0.0 ==>
              Turns(obj, n, p, sqrt, path) && path[0] == StartPoint(obj, old(x[..]), sqrt)
              && path[|path| - 1].x == x[..]
  {
    var err := CheckParams(n, p);
    if err != 0 { return Stopped(err), 0.0, null, []; }
    CheckedParams(n, p);
    var opt := new Optimizer(n, x, obj, p, sqrt, progress, live);
    hide *;
    var minimized := Begin(opt);
    if minimized {
      st, path := Stopped(LBFGS_ALREADY_MINIMIZED), [StartPoint(obj, x[..], sqrt)];
      OnePoint(obj, n, p, sqrt, path[0]);
    } else {
      st, path := Run(opt, fuel);
    }
    fx, o := opt.fx, opt;
  }

  /** Nothing to do: the starting point passes the gradient test. */
  ghost predicate MinimizedAtStart(o: Optimizer, st: Status)
    reads o, o.x, o.g, o.pg
  {
    o.Shape() && o.Evaluated() && o.Converged() && o.trace == [o.x[..]] && st == Stopped(LBFGS_ALREADY_MINIMIZED)
  }

  lemma FirstWaypoint(o: Optimizer)
    requires o.Shape() && o.Evaluated() && o.hist == []
    requires o.p.orthantwiseC == 0.0 ==> o.d[..] == Neg(o.g[..])
    requires Norm(o.d[..], o.sqrt) != 0.0 && o.step == 1.0 / Norm(o.d[..], o.sqrt)
    ensures o.p.orthantwiseC == 0.0 ==> o.Here() == StartPoint(o.obj, o.x[..], o.sqrt)
  {
    hide CheckParams, Neg, Norm, Optimizer.Cost, IsSqrt;
    NormNeg(o.g[..], o.sqrt);
  }

  lemma FirstFacts(o: Optimizer)
    requires o.Shape() && o.Evaluated() && o.Traced(1)
    ensures o.trace == [o.x[..]]
    ensures o.Converged() ==> MinimizedAtStart(o, Stopped(LBFGS_ALREADY_MINIMIZED))
  {}
}
