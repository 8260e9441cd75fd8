/** line_search_backtracking of src/lbfgs.c. */
module Backtracking {
  import opened Interpolation
  import opened LbfgsCodes
  import opened Vectors
  import opened Kernels
  import opened Objectives

  // ----- the conditions, along the line xp + t s, for initial value finit and slope dginit -----

  ghost predicate SufficientDecrease(obj: Objective, xp: Vec, s: Vec, finit: real, dginit: real, p: Params, t: real)
    requires |xp| == |s|
  {
    Value(obj, xp, s, t) <= finit + Mul(t, Mul(p.ftol, dginit))
  }

  ghost predicate Wolfe(obj: Objective, xp: Vec, s: Vec, dginit: real, p: Params, t: real)
    requires |xp| == |s| && IsObjective(obj, |s|)
  {
    Mul(p.wolfe, dginit) <= Slope(obj, xp, s, t)
  }

  ghost predicate StrongWolfe(obj: Objective, xp: Vec, s: Vec, dginit: real, p: Params, t: real)
    requires |xp| == |s| && IsObjective(obj, |s|)
  {
    Abs(Slope(obj, xp, s, t)) <= Mul(p.wolfe, -dginit)
  }

  /** What the selected mode asks of an accepted step. */
  ghost predicate Accepts(obj: Objective, xp: Vec, s: Vec, finit: real, dginit: real, p: Params, t: real)
    requires |xp| == |s| && IsObjective(obj, |s|)
  {
    && SufficientDecrease(obj, xp, s, finit, dginit, p, t)
    && (p.linesearch == LINESEARCH_BACKTRACKING_ARMIJO
        || (p.linesearch == LINESEARCH_BACKTRACKING_WOLFE && Wolfe(obj, xp, s, dginit, p, t))
        || (Wolfe(obj, xp, s, dginit, p, t) && StrongWolfe(obj, xp, s, dginit, p, t)))
  }

  /** The k-th trial step: halve when the step is too long, stretch when it is too short. */
  ghost function StepAt(obj: Objective, xp: Vec, s: Vec, finit: real, dginit: real, p: Params, t0: real, k: nat): real
    requires |xp| == |s| && IsObjective(obj, |s|)
  {
    if k == 0 then t0
    else
      var t := StepAt(obj, xp, s, finit, dginit, p, t0, k - 1);
      if SufficientDecrease(obj, xp, s, finit, dginit, p, t) && !Wolfe(obj, xp, s, dginit, p, t)
      then t * 2.1 else t * 0.5
  }

  lemma {:induction false} StepsPositive(obj: Objective, xp: Vec, s: Vec, finit: real, dginit: real, p: Params,
                                         t0: real, k: nat)
    requires |xp| == |s| && IsObjective(obj, |s|) && 0.0 < t0
    ensures 0.0 < StepAt(obj, xp, s, finit, dginit, p, t0, k)
  {
    if k > 0 { StepsPositive(obj, xp, s, finit, dginit, p, t0, k - 1); }
  }

  /** The step decreases the value enough, but its slope is still below wolfe times the initial one. */
  ghost predicate TooShort(obj: Objective, xp: Vec, s: Vec, finit: real, dginit: real, p: Params, t: real)
    requires |xp| == |s| && IsObjective(obj, |s|)
  {
    && Value(obj, xp, s, t) <= finit + Mul(t, Mul(p.ftol, dginit))
    && Slope(obj, xp, s, t) < Mul(p.wolfe, dginit)
  }

  /** How many of the first k trial steps are too short. */
  ghost function ShortTrials(obj: Objective, xp: Vec, s: Vec, finit: real, dginit: real, p: Params, t0: real,
                             k: nat): (n: nat)
    requires |xp| == |s| && IsObjective(obj, |s|)
    ensures n <= k
  {
    if k == 0 then 0
    else
      ShortTrials(obj, xp, s, finit, dginit, p, t0, k - 1)
      + if TooShort(obj, xp, s, finit, dginit, p, StepAt(obj, xp, s, finit, dginit, p, t0, k - 1)) then 1 else 0
  }

  /** In every mode the k-th trial step is the first one stretched by 2.1 for each of the trials before it that
      was too short, and halved for each of the others. */
  lemma {:induction false} StepsClosedForm(obj: Objective, xp: Vec, s: Vec, finit: real, dginit: real, p: Params,
                                           t0: real, k: nat)
    requires |xp| == |s| && IsObjective(obj, |s|)
    ensures var a := ShortTrials(obj, xp, s, finit, dginit, p, t0, k);
      StepAt(obj, xp, s, finit, dginit, p, t0, k) == Mul(Mul(t0, Pow(2.1, a)), Pow(0.5, k - a))
  {
    if k == 0 {
      assert Mul(Mul(t0, 1.0), 1.0) == t0;
    } else {
      StepsClosedForm(obj, xp, s, finit, dginit, p, t0, k - 1);
      var a := ShortTrials(obj, xp, s, finit, dginit, p, t0, k - 1);
      var t := StepAt(obj, xp, s, finit, dginit, p, t0, k - 1);
      hide Value, Slope;
      if TooShort(obj, xp, s, finit, dginit, p, t) {
        Stretched(Mul(t0, Pow(2.1, a)), t0, Pow(2.1, a), Pow(0.5, k - 1 - a), 2.1);
      } else {
        Stretched(Mul(Mul(t0, Pow(2.1, a)), Pow(0.5, k - 1 - a)), Mul(t0, Pow(2.1, a)), Pow(0.5, k - 1 - a), 1.0, 0.5);
      }
    }
  }

  lemma Stretched(c: real, t: real, x: real, y: real, w: real)
    requires c == Mul(t, x)
    ensures Mul(Mul(t, Mul(w, x)), y) == Mul(c, y) * w
    ensures Mul(t, Mul(w, x)) == c * w
  {}

  /** In Armijo mode no rejected trial is too short: the steps are t0, t0/2, t0/4, ... */
  lemma {:induction false} ArmijoHalves(obj: Objective, xp: Vec, s: Vec, finit: real, dginit: real, p: Params,
                                        t0: real, k: nat)
    requires |xp| == |s| && IsObjective(obj, |s|) && p.linesearch == LINESEARCH_BACKTRACKING_ARMIJO
    requires forall i :: 0 <= i < k ==>
               !Accepts(obj, xp, s, finit, dginit, p, StepAt(obj, xp, s, finit, dginit, p, t0, i))
    ensures StepAt(obj, xp, s, finit, dginit, p, t0, k) == Mul(t0, Pow(0.5, k))
  {
    NoShortTrials(obj, xp, s, finit, dginit, p, t0, k);
    StepsClosedForm(obj, xp, s, finit, dginit, p, t0, k);
    assert Mul(t0, Pow(2.1, 0)) == t0;
  }

  lemma {:induction false} NoShortTrials(obj: Objective, xp: Vec, s: Vec, finit: real, dginit: real, p: Params,
                                         t0: real, k: nat)
    requires |xp| == |s| && IsObjective(obj, |s|) && p.linesearch == LINESEARCH_BACKTRACKING_ARMIJO
    requires forall i :: 0 <= i < k ==>
               !Accepts(obj, xp, s, finit, dginit, p, StepAt(obj, xp, s, finit, dginit, p, t0, i))
    ensures ShortTrials(obj, xp, s, finit, dginit, p, t0, k) == 0
  {
    hide Value, Slope, Mul, StepAt;
    if k > 0 {
      NoShortTrials(obj, xp, s, finit, dginit, p, t0, k - 1);
      assert !Accepts(obj, xp, s, finit, dginit, p, StepAt(obj, xp, s, finit, dginit, p, t0, k - 1));
    }
  }

  /** The tests on a trial step, in the source's order, with the factor for the next one. */
  method Judge(ghost obj: Objective, ghost xp: Vec, s: Vec, finit: real, dginit: real, dgtest: real, p: Params,
               stp: real, f: real, g: Vec)
    returns (accepted: bool, width: real)
    requires |xp| == |s| == |g| && IsObjective(obj, |s|) && dgtest == Mul(p.ftol, dginit)
    requires f == Value(obj, xp, s, stp) && Dot(g, s) == Slope(obj, xp, s, stp)
    ensures accepted <==> Accepts(obj, xp, s, finit, dginit, p, stp)
    ensures !accepted ==> width == if TooShort(obj, xp, s, finit, dginit, p, stp) then 2.1 else 0.5
  {
    hide Mul, Dot, Value, Slope;
    NegateBound(p.wolfe, dginit);
    width := 0.5;
    if f > finit + Mul(stp, dgtest) { return false, width; }
    if p.linesearch == LINESEARCH_BACKTRACKING_ARMIJO { return true, width; }
    var dg := VecDot(g, s);
    if dg < Mul(p.wolfe, dginit) { return false, 2.1; }
    if p.linesearch == LINESEARCH_BACKTRACKING_WOLFE { return true, width; }
    return !(dg > Mul(-p.wolfe, dginit)), width;
  }

  lemma StepsStart(obj: Objective, xp: Vec, s: Vec, finit: real, dginit: real, p: Params, t0: real)
    requires |xp| == |s| && IsObjective(obj, |s|)
    ensures StepAt(obj, xp, s, finit, dginit, p, t0, 0) == t0
  {}

  lemma NextStep(obj: Objective, xp: Vec, s: Vec, finit: real, dginit: real, p: Params, t0: real, k: nat, width: real)
    requires |xp| == |s| && IsObjective(obj, |s|)
    requires width == if TooShort(obj, xp, s, finit, dginit, p, StepAt(obj, xp, s, finit, dginit, p, t0, k)) then 2.1
                      else 0.5
    ensures StepAt(obj, xp, s, finit, dginit, p, t0, k + 1) == StepAt(obj, xp, s, finit, dginit, p, t0, k) * width
  {
    hide Mul, Value, Slope;
  }

  /** A non-negative return is the position of the first acceptable trial step. */
  method LineSearchBacktracking(x: array<real>, f0: real, g: array<real>, s: Vec, stp0: real, xp: Vec,
                                obj: Objective, p: Params)
    returns (ret: int, f: real, stp: real, evals: nat)
    requires x != g && x.Length == g.Length == |s| == |xp| && IsObjective(obj, |s|)
    modifies x, g
    ensures ret == LBFGSERR_INVALIDPARAMETERS <==> stp0 <= 0.0
    ensures ret == LBFGSERR_INCREASEGRADIENT <==> 0.0 < stp0 && 0.0 < Dot(old(g[..]), s)
    ensures evals <= Max(p.maxLinesearch, 1) && (0 <= ret ==> ret == evals)
    ensures var dg0 := Dot(old(g[..]), s);
      if evals == 0 then
        f == f0 && stp == stp0 && x[..] == old(x[..]) && g[..] == old(g[..])
        && (ret == LBFGSERR_INVALIDPARAMETERS || ret == LBFGSERR_INCREASEGRADIENT)
      else
        && 0.0 < stp0 && dg0 <= 0.0
        && stp == StepAt(obj, xp, s, f0, dg0, p, stp0, evals - 1) && 0.0 < stp
        && x[..] == Axpy(xp, stp, s) && f == obj.f(x[..]) && g[..] == obj.grad(x[..])
        && (forall i :: 0 <= i < evals - 1 ==>
              var t := StepAt(obj, xp, s, f0, dg0, p, stp0, i);
              !Accepts(obj, xp, s, f0, dg0, p, t) && p.minStep <= t <= p.maxStep)
        && (0 <= ret <==> Accepts(obj, xp, s, f0, dg0, p, stp))
        && (ret < 0 ==> ret == if stp < p.minStep then LBFGSERR_MINIMUMSTEP
                               else if stp > p.maxStep then LBFGSERR_MAXIMUMSTEP
                               else LBFGSERR_MAXIMUMLINESEARCH)
        && (ret == LBFGSERR_MAXIMUMLINESEARCH ==> p.maxLinesearch <= evals)
  {
    hide Mul, Dot, Axpy, Accepts, TooShort, StepAt, Value, Slope, IsObjective;
    StepsStart(obj, xp, s, f0, Dot(g[..], s), p, stp0);
    var count := 0;
    f, stp, evals := f0, stp0, 0;
    if stp <= 0.0 { return LBFGSERR_INVALIDPARAMETERS, f, stp, 0; }
    var dginit := VecDot(g[..], s);
    if 0.0 < dginit { return LBFGSERR_INCREASEGRADIENT, f, stp, 0; }
    var finit := f;
    var dgtest := Mul(p.ftol, dginit);
    ghost var dg0 := dginit;
    while true
      invariant 0 <= count && (count == 0 || count < p.maxLinesearch)
      invariant stp == StepAt(obj, xp, s, finit, dg0, p, stp0, count) && 0.0 < stp
      invariant forall i :: 0 <= i < count ==>
                  var t := StepAt(obj, xp, s, finit, dg0, p, stp0, i);
                  !Accepts(obj, xp, s, finit, dg0, p, t) && p.minStep <= t <= p.maxStep
      decreases p.maxLinesearch - count
    {
      f := EvaluateOnLine(x, g, xp, s, stp, obj);
      count := count + 1;
      evals := count;
      var accepted, width := Judge(obj, xp, s, finit, dginit, dgtest, p, stp, f, g[..]);
      if accepted { return count, f, stp, count; }
      if stp < p.minStep { return LBFGSERR_MINIMUMSTEP, f, stp, count; }
      if stp > p.maxStep { return LBFGSERR_MAXIMUMSTEP, f, stp, count; }
      if p.maxLinesearch <= count { return LBFGSERR_MAXIMUMLINESEARCH, f, stp, count; }
      NextStep(obj, xp, s, finit, dg0, p, stp0, count - 1, width);
      stp := stp * width;
    }
  }

  function Max(a: int, b: int): int {
    if a >= b then a else b
  }

  lemma NegateBound(w: real, d: real)
    ensures Mul(-w, d) == Mul(w, -d) == -Mul(w, d)
  {}
}
