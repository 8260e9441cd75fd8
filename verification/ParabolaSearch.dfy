/** The Moré-Thuente search of src/lbfgs.c on a line where the function is a parabola: from any first step that goes
    too far it succeeds with its second evaluation, at the exact minimiser. */
module ParabolaSearch {
  import opened Interpolation
  import opened TrialInterval
  import opened Vectors
  import opened Objectives
  import opened MoreThuente

  // Along the line, with a = -dginit and w = c * h for the first step h:
  //   f(t) = f(0) - a t + c t^2,  f(h) = f(0) + h (w - a),  f'(h) = 2 w - a,  minimiser v = a / (2 c).

  /** Both interpolation formulas find the minimiser of a parabola. */
  lemma CubicOnParabola(fu: real, a: real, w: real, h: real, fv: real, v: real, sqrt: real -> real)
    requires IsSqrt(sqrt) && 0.0 < h && 0.0 < a < w && fv - fu == h * (w - a) && v * (2.0 * w) == a * h
    ensures CubicMinimizer(0.0, fu, -a, h, fv, 2.0 * w - a, sqrt) == v
  {
    hide Theta, Gamma, CubicRatio;
    ThetaOnParabola(fu, a, w, h, fv);
    var theta := a - w;
    var ww := MulPos(w, w);
    assert theta * theta - (-a) * (2.0 * w - a) == w * w;
    var gamma := GammaOf(0.0, h, -a, 2.0 * w - a, theta, sqrt);
    SquareCompareWeak(gamma, w);
    SquareCompareWeak(w, gamma);
    RatioOnParabola(a, w, h, v);
  }

  lemma ThetaOnParabola(fu: real, a: real, w: real, h: real, fv: real)
    requires 0.0 < h && fv - fu == h * (w - a)
    ensures Theta(0.0, fu, -a, h, fv, 2.0 * w - a) == a - w
  {
    RatioTimes((fu - fv) * 3.0, h, (a - w) * 3.0);
  }

  lemma RatioOnParabola(a: real, w: real, h: real, v: real)
    requires 0.0 < w && v * (2.0 * w) == a * h
    ensures 0.0 + CubicRatio(-a, 2.0 * w - a, a - w, w) * (h - 0.0) == v
  {
    var r := CubicRatio(-a, 2.0 * w - a, a - w, w);
    assert r == Quot(2.0 * a, 4.0 * w);
    RatioTimes(2.0 * a, 4.0 * w, r);
    assert (r * h - v) * w == 0.0;
    ZeroFactor(r * h - v, w);
  }

  lemma QuadOnParabola(fu: real, a: real, w: real, h: real, fv: real, v: real)
    requires 0.0 < h && 0.0 < a < w && fv - fu == h * (w - a) && v * (2.0 * w) == a * h
    ensures QuadMinimizer(0.0, fu, -a, h, fv) == v
  {
    var m := Quot(fu - fv, h);
    RatioTimes(fu - fv, h, a - w);
    assert m == a - w;
    var r := Quot(-a, -w);
    RatioTimes(-a, -w, r);
    assert (r / 2.0 * h - v) * w == 0.0;
    ZeroFactor(r / 2.0 * h - v, w);
  }

  // ----- the two evaluations -----

  /** Parameters whose limits are out of the way for a first step h and the minimiser v. */
  predicate Roomy(p: Params, h: real, v: real) {
    && p.minStep < v && h <= p.maxStep && h < 1.32 * (p.maxStep - p.minStep)
    && 0.0 <= p.ftol <= 0.5 && 0.0 <= p.gtol && p.xtol < 1.0 && 2 < p.maxLinesearch
  }

  /** The state after a first step that went too far. */
  function Second(e: Env, h: real, fh: real, dh: real, v: real): State {
    var w := e.p.maxStep - e.p.minStep;
    State(Trial(0.0, e.finit, e.dginit, h, fh, dh, v, fh, dh, true), true, 0, h, w, 1)
  }

  /** The first update brackets the minimiser, and its trial is the minimiser. */
  lemma FirstUpdate(e: Env, h: real, w: real, fh: real, v: real)
    requires IsSqrt(e.sqrt) && 0.0 < -e.dginit < w && 0.0 < h
    requires fh - e.finit == h * (w + e.dginit) && v * (2.0 * w) == -e.dginit * h && 0.0 < v < 0.5 * h
    ensures e.finit < fh
    ensures var b := Trial(0.0, e.finit, e.dginit, 0.0, e.finit, e.dginit, h, fh, 2.0 * w + e.dginit, false);
      UpdateTrial(b, 0.0, 5.0 * h, e.sqrt)
      == (0, b.(y := h, fy := fh, dy := 2.0 * w + e.dginit, brackt := true, t := v))
  {
    var a := -e.dginit;
    var up := MulPos(h, w - a);
    CubicOnParabola(e.finit, a, w, h, fh, v, e.sqrt);
    QuadOnParabola(e.finit, a, w, h, fh, v);
    var b := Trial(0.0, e.finit, e.dginit, 0.0, e.finit, e.dginit, h, fh, 2.0 * w + e.dginit, false);
    hide CubicMinimizer, QuadMinimizer;
    StatusExact(b, 0.0, 5.0 * h, e.sqrt);
    hide UpdateTrial;
    HigherTrial(b, 0.0, 5.0 * h, e.sqrt);
  }

  lemma FirstTurn(e: Env, h: real, w: real, fh: real, v: real)
    requires IsSqrt(e.sqrt) && 0.0 < -e.dginit < w && 0.0 < h && Roomy(e.p, h, v)
    requires fh - e.finit == h * (w + e.dginit) && v * (2.0 * w) == -e.dginit * h && 0.0 < v < 0.5 * h
    ensures TrialPoint(e, Init(e, h)) == h
    ensures Step(e, Init(e, h), fh, 2.0 * w + e.dginit) == More(Second(e, h, fh, 2.0 * w + e.dginit, v))
  {
    FirstUpdate(e, h, w, fh, v);
    var st, dh := Init(e, h), 2.0 * w + e.dginit;
    TestBelow(e, h);
    hide UpdateTrial, Mul;
    assert StepMin(st.b) == 0.0 && StepMax(st.b) == 5.0 * h;
    assert Verdict(e, st, h, fh, dh) == 0;
    assert !UsesModified(e, true, st.b.(t := h, ft := fh, dt := dh));
  }

  /** The line of sufficient decrease runs below the initial value. */
  lemma TestBelow(e: Env, t: real)
    requires e.dginit < 0.0 && 0.0 < t && 0.0 <= e.p.ftol
    ensures e.FTest(t) <= e.finit
  {
    var a := MulNonNeg(e.p.ftol, -e.dginit);
    var b := MulNonNeg(t, a);
  }

  /** At the minimiser the decrease is half of what the initial slope promises. */
  lemma SecondTurn(e: Env, h: real, fh: real, dh: real, v: real, fv: real)
    requires e.dginit < 0.0 && 0.0 < v < 0.5 * h && Roomy(e.p, h, v) && fv == e.finit + 0.5 * (v * e.dginit)
    ensures TrialPoint(e, Second(e, h, fh, dh, v)) == v
    ensures Step(e, Second(e, h, fh, dh, v), fv, 0.0) == Done(2)
  {
    var st := Second(e, h, fh, dh, v);
    var a := MulPos(v, -e.dginit);
    var c := MulNonNeg(0.5 - e.p.ftol, a);
    assert fv <= e.finit + Mul(v, Mul(e.p.ftol, e.dginit));
    var g := MulNonNeg(e.p.gtol, -e.dginit);
    var x := MulPos(1.0 - e.p.xtol, h);
    assert Mul(e.p.xtol, h) < h && 0.0 <= Mul(e.p.gtol, -e.dginit);
    hide Mul;
    assert Max2(0.0, h) == h && Min2(0.0, h) == 0.0;
    assert Clip(e.p, v) == v && TrialPoint(e, st) == v;
    assert Satisfies(e, v, fv, 0.0) && Unobstructed(e, st, v, 0.0);
    SuccessExact(e, st, fv, 0.0);
  }

  /** On a parabola, from any first step beyond twice the minimiser, the search stops successfully at its second
      evaluation, which is at the minimiser. */
  lemma ParabolaInTwo(e: Env, stp0: real, c: real, v: real, phi: real -> real, dphi: real -> real)
    requires IsSqrt(e.sqrt) && e.dginit < 0.0 < c && v == -e.dginit / (2.0 * c)
    requires forall t :: phi(t) == e.finit + e.dginit * t + c * t * t
    requires forall t :: dphi(t) == e.dginit + 2.0 * c * t
    requires 2.0 * v < stp0 && Roomy(e.p, stp0, v)
    ensures Reach(e, stp0, phi, dphi, 1).More? && TrialPoint(e, Reach(e, stp0, phi, dphi, 1).next) == v
    ensures dphi(v) == 0.0 && Reach(e, stp0, phi, dphi, 2) == Done(2)
  {
    MinimiserPlace(-e.dginit, c, v, stp0);
    var w := c * stp0;
    var fh, fv := ParabolaAt(e.finit, e.dginit, c, stp0, v);
    TwoTurns(e, stp0, w, fh, v, fv, phi, dphi);
  }

  lemma ParabolaAt(f: real, d: real, c: real, h: real, v: real) returns (fh: real, fv: real)
    requires c * v == -0.5 * d
    ensures fh == f + d * h + c * h * h && fh - f == h * (c * h + d)
    ensures fv == f + d * v + c * v * v && fv == f + 0.5 * (v * d)
    ensures d + 2.0 * c * h == 2.0 * (c * h) + d && d + 2.0 * c * v == 0.0
  {
    fh, fv := f + d * h + c * h * h, f + d * v + c * v * v;
    assert c * v * v == (c * v) * v;
  }

  lemma TwoTurns(e: Env, h: real, w: real, fh: real, v: real, fv: real, phi: real -> real, dphi: real -> real)
    requires IsSqrt(e.sqrt) && 0.0 < -e.dginit < w && 0.0 < h && Roomy(e.p, h, v)
    requires fh - e.finit == h * (w + e.dginit) && v * (2.0 * w) == -e.dginit * h && 0.0 < v < 0.5 * h
    requires phi(h) == fh && dphi(h) == 2.0 * w + e.dginit
    requires phi(v) == fv == e.finit + 0.5 * (v * e.dginit) && dphi(v) == 0.0
    ensures Reach(e, h, phi, dphi, 1).More? && TrialPoint(e, Reach(e, h, phi, dphi, 1).next) == v
    ensures Reach(e, h, phi, dphi, 2) == Done(2)
  {
    hide *;
    FirstTurn(e, h, w, fh, v);
    SecondTurn(e, h, fh, 2.0 * w + e.dginit, v, fv);
    ReachNone(e, h, phi, dphi);
    ReachNext(e, h, phi, dphi, 0);
    ReachNext(e, h, phi, dphi, 1);
  }

  lemma MinimiserPlace(a: real, c: real, v: real, h: real)
    requires 0.0 < a && 0.0 < c && v == a / (2.0 * c) && 2.0 * v < h
    ensures 0.0 < v < 0.5 * h && c * v == 0.5 * a && a < c * h && v * (2.0 * (c * h)) == a * h
  {
    assert v * (2.0 * c) == a;
    if v <= 0.0 { var p := MulNonNeg(-v, 2.0 * c); }
    var q := MulPos(h - 2.0 * v, c);
    assert v * (2.0 * (c * h)) == (v * (2.0 * c)) * h;
  }
}
