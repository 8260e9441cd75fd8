/** The bracket of the Moré–Thuente search over a whole run, the first stage included: when every trial
    stays inside it and no root of a negative number is taken (src/lbfgs.c:932-1122, 1246-1413). */
module BracketRun {
  import opened Interpolation
  import opened LbfgsCodes
  import opened TrialInterval
  import opened Vectors
  import opened Objectives
  import opened MoreThuente

  // ----- the cubic step towards a far end that is lower -----

  /** Where the ratio of the cubic formula lies for two downhill slopes -a and -b and a mean slope of
      -w / 3. */
  predicate RootPlace(a: real, b: real, w: real) {
    a + b > 2.0 * w || b < w < a || (a < w < b && a + b < 2.0 * w)
  }

  /** The discriminant is not negative, and the root lies strictly between the two points. */
  predicate TurnsInside(a: real, b: real, w: real) {
    a * b <= (a + b - w) * (a + b - w) && RootPlace(a, b, w)
  }

  lemma FractionInside(p: real, q: real)
    ensures 0.0 < Quot(p, q) < 1.0 <==> 0.0 < p < q || q < p < 0.0
  {
    var r := Quot(p, q);
    if 0.0 < p < q || q < p < 0.0 {
      ProperFraction(p, q);
    } else if 0.0 < q {
      if 0.0 < r { var _ := MulPos(r, q); }
      if r < 1.0 { var _ := MulPos(1.0 - r, q); }
    } else if q < 0.0 {
      if 0.0 < r { var _ := MulPos(r, -q); }
      if r < 1.0 { var _ := MulPos(1.0 - r, -q); }
    }
  }

  lemma DownhillRatio(a: real, b: real, w: real, theta: real, gamma: real)
    requires 0.0 < a && 0.0 <= b && 0.0 <= w && theta == w - a - b
    requires 0.0 <= gamma && gamma * gamma == theta * theta - a * b
    ensures 0.0 < CubicRatio(-a, -b, theta, gamma) < 1.0 <==> RootPlace(a, b, w)
  {
    var p, rest, s := gamma - b + w, gamma + a - w, a + b - 2.0 * w;
    FractionInside(p, p + rest);
    assert gamma * gamma - (b - w) * (b - w) == a * s;
    assert gamma * gamma - (w - a) * (w - a) == b * s;
    RootSign(gamma, b - w, a, s);
    if b > 0.0 {
      RootSign(gamma, w - a, b, s);
    } else {
      SameSquare(gamma, w - a);
    }
  }

  /** The sign of s decides whether the root is longer than z. */
  lemma RootSign(gamma: real, z: real, c: real, s: real)
    requires 0.0 <= gamma && 0.0 < c && gamma * gamma - z * z == c * s
    ensures 0.0 < s ==> -gamma < z < gamma
    ensures s == 0.0 ==> gamma == z || gamma == -z
    ensures s < 0.0 ==> z < -gamma || gamma < z
  {
    if 0.0 < s {
      var _ := MulPos(c, s);
      SquareCompare(gamma, z);
    } else if s < 0.0 {
      var _ := MulPos(c, -s);
      SquareCompare(Abs(z), gamma);
    } else {
      SameSquare(gamma, z);
    }
  }

  lemma SameSquare(gamma: real, z: real)
    requires gamma * gamma == z * z
    ensures gamma == z || gamma == -z
  {
    assert (gamma - z) * (gamma + z) == 0.0;
  }

  /** With downhill slopes at both ends and a far end no higher, the formula takes a root and lands
      between the ends exactly when the cubic turns inside. */
  lemma LowerFarEnd(u: real, fu: real, du: real, v: real, fv: real, dv: real, sqrt: real -> real)
    requires IsSqrt(sqrt) && u < v && du < 0.0 && dv <= 0.0 && fv <= fu
    ensures !NegativeDisc(u, fu, du, v, fv, dv) && Between(u, CubicMinimizer(u, fu, du, v, fv, dv, sqrt), v)
      <==> TurnsInside(-du, -dv, Quot((fu - fv) * 3.0, v - u))
  {
    var a, b, w := -du, -dv, Quot((fu - fv) * 3.0, v - u);
    hide RootPlace, NegativeDisc, CubicMinimizer;
    LowerDisc(u, fu, du, v, fv, dv);
    if a * b <= (a + b - w) * (a + b - w) { LowerPlace(u, fu, du, v, fv, dv, sqrt); }
  }

  lemma LowerDisc(u: real, fu: real, du: real, v: real, fv: real, dv: real)
    requires u < v && du < 0.0 && dv <= 0.0 && fv <= fu
    ensures var a, b, w := -du, -dv, Quot((fu - fv) * 3.0, v - u);
      NegativeDisc(u, fu, du, v, fv, dv) <==> (a + b - w) * (a + b - w) < a * b
  {
    var theta := Theta(u, fu, du, v, fv, dv);
    DownhillTheta(u, fu, du, v, fv, dv, theta);
    NegatedProduct(du, dv);
    DiscSign(theta, du, dv);
    hide Theta, Magnitude, ScaledDisc, Quot;
  }

  lemma LowerPlace(u: real, fu: real, du: real, v: real, fv: real, dv: real, sqrt: real -> real)
    requires IsSqrt(sqrt) && u < v && du < 0.0 && dv <= 0.0 && fv <= fu
    requires var a, b, w := -du, -dv, Quot((fu - fv) * 3.0, v - u);
      a * b <= (a + b - w) * (a + b - w)
    ensures Between(u, CubicMinimizer(u, fu, du, v, fv, dv, sqrt), v) <==>
      RootPlace(-du, -dv, Quot((fu - fv) * 3.0, v - u))
  {
    hide Theta, Quot, Gamma, RootPlace, CubicRatio;
    var theta, w := Theta(u, fu, du, v, fv, dv), Quot((fu - fv) * 3.0, v - u);
    DownhillTheta(u, fu, du, v, fv, dv, theta);
    var gamma := DownhillRoot(u, v, du, dv, theta, w, sqrt);
    var r := CubicRatio(du, dv, theta, gamma);
    assert CubicMinimizer(u, fu, du, v, fv, dv, sqrt) == u + r * (v - u);
    hide *;
    RatioPlace(u, v, r);
  }

  lemma DownhillRoot(u: real, v: real, du: real, dv: real, theta: real, w: real, sqrt: real -> real)
    returns (gamma: real)
    requires IsSqrt(sqrt) && u < v && du < 0.0 && dv <= 0.0 && 0.0 <= w && theta == w - (-du) - (-dv)
    requires theta * theta >= (-du) * (-dv)
    ensures gamma == Gamma(u, v, du, dv, theta, sqrt)
    ensures 0.0 < CubicRatio(du, dv, theta, gamma) < 1.0 <==> RootPlace(-du, -dv, w)
  {
    NegatedProduct(du, dv);
    hide Theta, Magnitude, ScaledDisc, CubicRatio, RootPlace;
    gamma := GammaOf(u, v, du, dv, theta, sqrt);
    DownhillRatio(-du, -dv, w, theta, gamma);
  }

  lemma NegatedProduct(a: real, b: real)
    ensures (-a) * (-b) == a * b
  {}

  lemma DownhillTheta(u: real, fu: real, du: real, v: real, fv: real, dv: real, theta: real)
    requires u < v && fv <= fu && theta == Theta(u, fu, du, v, fv, dv)
    ensures var w := Quot((fu - fv) * 3.0, v - u);
      0.0 <= w && theta == w - (-du) - (-dv) && theta * theta == (-du + -dv - w) * (-du + -dv - w)
  {
    var w := Quot((fu - fv) * 3.0, v - u);
    assert w * (v - u) == (fu - fv) * 3.0;
    if w < 0.0 { var _ := MulPos(-w, v - u); }
    SquareNeg(theta);
  }

  lemma DiscSign(theta: real, du: real, dv: real)
    requires du != 0.0
    ensures ScaledDisc(theta, du, dv, Magnitude(theta, du, dv)) < 0.0 <==> theta * theta < du * dv
  {
    hide Magnitude;
    var s := Magnitude(theta, du, dv);
    MagnitudePositive(theta, du, dv);
    ScaledSquare(theta, du, dv, s);
    ScaledSign(ScaledDisc(theta, du, dv, s), s, theta * theta - du * dv);
  }

  lemma ScaledSign(disc: real, s: real, target: real)
    requires 0.0 < s && disc * (s * s) == target
    ensures disc < 0.0 <==> target < 0.0
  {
    var s2 := MulPos(s, s);
    if disc < 0.0 { var _ := MulPos(-disc, s2); } else { var _ := MulNonNeg(disc, s2); }
  }

  lemma RatioPlace(u: real, v: real, r: real)
    requires u < v
    ensures Between(u, u + r * (v - u), v) <==> 0.0 < r < 1.0
  {
    var z := r * (v - u);
    if 0.0 < r < 1.0 {
      var _ := FractionOf(r, u, v);
    } else if r <= 0.0 {
      var _ := MulNonNeg(-r, v - u);
    } else {
      var _ := MulNonNeg(r - 1.0, v - u);
    }
  }

  // ----- one update -----

  /** One of the two calls of CUBIC_MINIMIZER that the update may make takes a negative root. The second
      formula guards its argument at zero. */
  predicate NegativeRoot(b: Trial) {
    if b.fx < b.ft || SignsDiffer(b.dt, b.dx) then NegativeDisc(b.x, b.fx, b.dx, b.t, b.ft, b.dt)
    else b.brackt && !(Abs(b.dt) < Abs(b.dx)) && NegativeDisc(b.t, b.ft, b.dt, b.y, b.fy, b.dy)
  }

  /** The update succeeds, on real numbers, with a next trial strictly inside the bracket, or ahead of
      the best step while there is no bracket. */
  predicate Clean(b: Trial, tmin: real, tmax: real, sqrt: real -> real) {
    var (u, n) := UpdateTrial(b, tmin, tmax, sqrt);
    !NegativeRoot(b) && u == 0 && if n.brackt then Between(n.x, n.t, n.y) else n.x < n.t
  }

  /** The trial is ahead of a best step that points downhill, and inside the bracket if there is one. */
  predicate Ahead(b: Trial, tmin: real, tmax: real) {
    b.x < b.t && b.dx < 0.0 && tmin == b.x && b.t < tmax && (b.brackt ==> tmax == b.y)
  }

  lemma AheadAccepted(b: Trial, tmin: real, tmax: real)
    requires Ahead(b, tmin, tmax)
    ensures CheckTrial(b, tmin, tmax) == 0
  {
    NegativeProduct(b.dx, b.t - b.x);
  }

  /** After a higher value or a slope that has turned uphill, best and trial step form a valid bracket. */
  lemma TurnBack(b: Trial, tmin: real, tmax: real, sqrt: real -> real)
    requires IsSqrt(sqrt) && Ahead(b, tmin, tmax) && (b.fx < b.ft || 0.0 < b.dt)
    ensures Clean(b, tmin, tmax, sqrt)
    ensures var n := UpdateTrial(b, tmin, tmax, sqrt).1;
      Bracketed(n) && n.fx == Min2(b.fx, b.ft)
      && (if b.fx < b.ft then Best(n) == Best(b) && Other(n) == Current(b)
          else Best(n) == Current(b) && Other(n) == Best(b))
      && (b.fx < b.ft ==> n.t - n.x <= 0.66 * (n.y - n.x))
  {
    AheadAccepted(b, tmin, tmax);
    SignsDifferMeaning(b.dt, b.dx);
    CubicMinimizerInside(b.x, b.fx, b.dx, b.t, b.ft, b.dt, sqrt);
    var s, p := Shrink(b), Propose(b, tmin, tmax, sqrt);
    if b.fx < b.ft {
      ProposeHigher(b, tmin, tmax, sqrt);
    } else {
      ProposeOpposite(b, tmin, tmax, sqrt);
    }
    ProposeFlags(b, tmin, tmax, sqrt);
    hide Propose, SignsDiffer, NegativeDisc, CheckTrial;
    var n := UpdateTrial(b, tmin, tmax, sqrt).1;
    assert n == s.(t := Safeguard(s.x, s.y, p, tmin, tmax), brackt := p.brackt);
    NegativeProduct(n.dx, n.t - n.x);
    NegativeProduct(n.dy, n.dx);
  }

  /** A lower value on a slope still downhill, not bracketed: the search moves on. */
  lemma MoveOn(b: Trial, tmin: real, tmax: real, sqrt: real -> real)
    requires IsSqrt(sqrt) && Ahead(b, tmin, tmax) && !b.brackt && b.ft <= b.fx && b.dt < 0.0
    ensures Clean(b, tmin, tmax, sqrt)
    ensures var n := UpdateTrial(b, tmin, tmax, sqrt).1; !n.brackt && Best(n) == Current(b) && n.x < n.t <= tmax
  {
    SignsDifferMeaning(b.dt, b.dx);
    UpdateExtends(b, tmin, tmax, sqrt);
    TrialEnds(b, tmin, tmax, sqrt);
    hide Propose, SignsDiffer, UpdateTrial;
  }

  /** ... bracketed, with a slope that shrinks: the trial becomes the best step. */
  lemma MoveOnShrinking(b: Trial, tmin: real, tmax: real, sqrt: real -> real)
    requires Ahead(b, tmin, tmax) && b.brackt && b.ft <= b.fx && b.dx < b.dt < 0.0
    ensures Clean(b, tmin, tmax, sqrt)
    ensures var n := UpdateTrial(b, tmin, tmax, sqrt).1;
      n.brackt && Best(n) == Current(b) && Other(n) == Other(b) && n.x < n.t < n.y
  {
    AheadAccepted(b, tmin, tmax);
    SignsDifferMeaning(b.dt, b.dx);
    var s, p := Shrink(b), Propose(b, tmin, tmax, sqrt);
    ProposeShrinking(b, tmin, tmax, sqrt);
    ProposeFlags(b, tmin, tmax, sqrt);
    hide Propose, SignsDiffer, NegativeDisc, CheckTrial;
    SafeguardInside(s.x, s.y, p, tmin, tmax);
    var n := UpdateTrial(b, tmin, tmax, sqrt).1;
    assert n == s.(t := Safeguard(s.x, s.y, p, tmin, tmax), brackt := p.brackt);
  }

  /** ... with a slope that does not shrink: the cubic is drawn to the far end. Only a far end that is
      no higher, and downhill too, can spoil it, and exactly when the cubic does not turn inside. */
  lemma MoveOnGrowing(b: Trial, tmin: real, tmax: real, sqrt: real -> real)
    requires IsSqrt(sqrt) && Ahead(b, tmin, tmax) && b.brackt && b.ft <= b.fx && b.dt <= b.dx
    ensures Clean(b, tmin, tmax, sqrt) <==>
            b.ft < b.fy || 0.0 < b.dy || TurnsInside(-b.dt, -b.dy, Quot((b.ft - b.fy) * 3.0, b.y - b.t))
    ensures var n := UpdateTrial(b, tmin, tmax, sqrt).1; n.brackt && Best(n) == Current(b) && Other(n) == Other(b)
  {
    AheadAccepted(b, tmin, tmax);
    SignsDifferMeaning(b.dt, b.dx);
    var s, p := Shrink(b), Propose(b, tmin, tmax, sqrt);
    var mc := CubicMinimizer(b.t, b.ft, b.dt, b.y, b.fy, b.dy, sqrt);
    assert p == Proposal(mc, true, false) by { hide CubicMinimizer, SignsDiffer; }
    if b.ft < b.fy || 0.0 < b.dy {
      CubicMinimizerInside(b.t, b.ft, b.dt, b.y, b.fy, b.dy, sqrt);
    } else {
      LowerFarEnd(b.t, b.ft, b.dt, b.y, b.fy, b.dy, sqrt);
    }
    hide Propose, SignsDiffer, NegativeDisc, CheckTrial, CubicMinimizer, TurnsInside;
    var n := UpdateTrial(b, tmin, tmax, sqrt).1;
    assert n == s.(t := Safeguard(s.x, s.y, p, tmin, tmax), brackt := p.brackt);
    assert Between(n.x, n.t, n.y) <==> Between(n.x, mc, n.y);
  }

  /** A valid bracket has no unclean update. */
  lemma BracketedClean(b: Trial, tmin: real, tmax: real, sqrt: real -> real)
    requires IsSqrt(sqrt) && Bracketed(b) && b.dt != 0.0 && tmin == Min2(b.x, b.y) && tmax == Max2(b.x, b.y)
    ensures Clean(b, tmin, tmax, sqrt) && Bracketed(UpdateTrial(b, tmin, tmax, sqrt).1)
  {
    UpdateKeepsBracket(b, tmin, tmax, sqrt);
    hide UpdateTrial, NegativeDisc;
    NegativeProduct(b.dx, b.t - b.x);
    NegativeProduct(b.dy, b.dx);
    SignsDifferMeaning(b.dt, b.dx);
    hide SignsDiffer;
    if b.fx < b.ft || SignsDiffer(b.dt, b.dx) {
      CubicMinimizerInside(b.x, b.fx, b.dx, b.t, b.ft, b.dt, sqrt);
    } else if !(Abs(b.dt) < Abs(b.dx)) {
      CubicMinimizerInside(b.t, b.ft, b.dt, b.y, b.fy, b.dy, sqrt);
    }
  }

  // ----- one step of the search -----

  /** What the update of this step is handed: the function itself, or the modified one. */
  function Handed(e: Env, st: State, f: real, dg: real): Trial {
    var t := TrialPoint(e, st);
    var b := st.b.(t := t, ft := f, dt := dg);
    if UsesModified(e, st.stage1 && !StageOneEnds(e, t, f, dg), b) then Modified(e, b) else b
  }

  predicate CleanStep(e: Env, st: State, f: real, dg: real) {
    Clean(Handed(e, st, f, dg), StepMin(st.b), StepMax(st.b), e.sqrt)
  }

  /** Before bracketing the trial is ahead of the best step, in the first stage. Bracketed, the first
      stage keeps the far end ahead and above the best step or above the line of sufficient decrease;
      after it the bracket is valid. */
  predicate StageSound(e: Env, st: State) {
    st.uinfo == 0 &&
    if !st.b.brackt then st.stage1 && st.b.x < st.b.t && e.p.minStep <= st.b.t
    else if st.stage1 then st.b.x < st.b.t < st.b.y && (st.b.fx < st.b.fy || e.FTest(st.b.y) < st.b.fy)
    else Bracketed(st.b)
  }

  /** In the first stage, bracketed: value and slope fall on at the trial, the far end is no higher and
      still downhill, and the cubic through trial and far end does not turn between them. */
  predicate Spoiled(e: Env, st: State, f: real, dg: real) {
    var t, b := TrialPoint(e, st), st.b;
    && b.brackt && st.stage1 && f <= e.FTest(t) && f <= b.fx && dg <= b.dx
    && b.fy <= f && b.dy <= 0.0 && !TurnsInside(-dg, -b.dy, Quot((f - b.fy) * 3.0, b.y - t))
  }

  /** What is known when a step of a sound search goes on. */
  lemma Going(e: Env, st: State, f: real, dg: real)
    requires StepRange(e.p) && StageSound(e, st) && (st.b.brackt || st.b.x < TrialPoint(e, st))
    requires Step(e, st, f, dg).More?
    ensures var t := TrialPoint(e, st);
      && e.p.minStep <= t
      && (if st.b.brackt then Between(st.b.x, t, st.b.y) else st.b.x < t < StepMax(st.b))
      && !(f <= e.FTest(t) && Abs(dg) <= Mul(e.p.gtol, -e.dginit))
  {
    StepContinues(e, st, f, dg);
    NotAccepted(e, st, f, dg);
    hide Step, FallBack, TrialPoint, Bracketed, Mul;
  }

  lemma NotAccepted(e: Env, st: State, f: real, dg: real)
    requires Step(e, st, f, dg).More?
    ensures !(f <= e.FTest(TrialPoint(e, st)) && Abs(dg) <= Mul(e.p.gtol, -e.dginit))
  {
    hide UpdateInterval, Mul, StageOneEnds, FallBack;
  }

  lemma StageOneSigns(e: Env)
    requires StageParams(e) && 0.0 <= e.p.ftol
    ensures Mul(Min2(e.p.ftol, e.p.gtol), e.dginit) == e.DgTest() <= 0.0
    ensures -e.DgTest() <= Mul(e.p.gtol, -e.dginit)
  {
    var p := MulNonNeg(e.p.ftol, -e.dginit);
    var q := MulNonNeg(e.p.gtol - e.p.ftol, -e.dginit);
  }

  /** A step inside the first stage. */
  lemma FirstStageStep(e: Env, st: State, f: real, dg: real)
    requires IsSqrt(e.sqrt) && StageParams(e) && 0.0 <= e.p.ftol && StageOne(e, st) && StageSound(e, st) && st.stage1
    requires StepRange(e.p) && (st.b.brackt || st.b.x < TrialPoint(e, st))
    requires Step(e, st, f, dg).More?
    ensures CleanStep(e, st, f, dg) <==> !Spoiled(e, st, f, dg)
    ensures !Spoiled(e, st, f, dg) ==> StageSound(e, Step(e, st, f, dg).next)
  {
    hide UpdateTrial, Mul, FallBack, Verdict, TurnsInside, NegativeRoot, Step, TrialPoint;
    var t := TrialPoint(e, st);
    var lo, hi := StepMin(st.b), StepMax(st.b);
    var b := st.b.(t := t, ft := f, dt := dg);
    var ends := StageOneEnds(e, t, f, dg);
    StageOneSigns(e);
    Going(e, st, f, dg);
    AfterStep(e, st, f, dg);
    assert Ahead(b, lo, hi);
    if UsesModified(e, !ends, b) {
      ModifiedIsHigher(e, b);
      TurnBack(Modified(e, b), lo, hi, e.sqrt);
    } else if b.fx < f || 0.0 < dg {
      TurnBack(b, lo, hi, e.sqrt);
      var n := UpdateTrial(b, lo, hi, e.sqrt).1;
      BisectKeepsBracket(n, n.x + 0.5 * (n.y - n.x));
    } else if !b.brackt {
      MoveOn(b, lo, hi, e.sqrt);
    } else if b.dx < dg {
      MoveOnShrinking(b, lo, hi, e.sqrt);
    } else {
      MoveOnGrowing(b, lo, hi, e.sqrt);
    }
  }

  /** The new state, from what the update returns. */
  lemma AfterStep(e: Env, st: State, f: real, dg: real)
    requires Step(e, st, f, dg).More?
    ensures var t := TrialPoint(e, st);
      var stage1 := st.stage1 && !StageOneEnds(e, t, f, dg);
      var (u, n) := UpdateTrial(Handed(e, st, f, dg), StepMin(st.b), StepMax(st.b), e.sqrt);
      var s := Step(e, st, f, dg).next;
      var b := st.b.(t := t, ft := f, dt := dg);
      && s.stage1 == stage1 && s.uinfo == u && s.b.brackt == n.brackt && s.b.x == n.x && s.b.y == n.y
      && (s.b.t == n.t || (n.brackt && s.b.t == n.x + 0.5 * (n.y - n.x)))
      && (!UsesModified(e, stage1, b) ==> Best(s.b) == Best(n) && Other(s.b) == Other(n))
      && (UsesModified(e, stage1, b) && Handed(e, st, f, dg).fx < Handed(e, st, f, dg).ft ==>
           u != 0 || (Best(s.b) == Best(b) && Other(s.b) == Current(b)))
  {
    hide Mul, FallBack, Verdict, StageOneEnds, Propose, SignsDiffer, Safeguard, CheckTrial;
  }

  /** A step after the first stage. */
  lemma LaterStep(e: Env, st: State, f: real, dg: real)
    requires IsSqrt(e.sqrt) && StageSound(e, st) && !st.stage1 && dg != 0.0 && Step(e, st, f, dg).More?
    ensures CleanStep(e, st, f, dg) && StageSound(e, Step(e, st, f, dg).next)
  {
    var b := st.b.(t := TrialPoint(e, st), ft := f, dt := dg);
    StepContinues(e, st, f, dg);
    AfterStep(e, st, f, dg);
    NegativeProduct(st.b.dx, st.b.t - st.b.x);
    NegativeProduct(b.dx, b.t - b.x);
    BracketedClean(b, StepMin(st.b), StepMax(st.b), e.sqrt);
    var n := UpdateTrial(b, StepMin(st.b), StepMax(st.b), e.sqrt).1;
    BisectKeepsBracket(n, n.x + 0.5 * (n.y - n.x));
    hide UpdateTrial, Mul, FallBack, Clean, Step;
    assert Handed(e, st, f, dg) == b;
  }

  /** One step of a sound search is clean, and leaves it sound, exactly unless the cubic is spoiled. */
  lemma StageStep(e: Env, st: State, f: real, dg: real)
    requires IsSqrt(e.sqrt) && StageParams(e) && 0.0 <= e.p.ftol && StepRange(e.p)
    requires StageOne(e, st) && StageSound(e, st) && (st.b.brackt || st.b.x < TrialPoint(e, st))
    requires dg != 0.0 && Step(e, st, f, dg).More?
    ensures CleanStep(e, st, f, dg) <==> !Spoiled(e, st, f, dg)
    ensures !Spoiled(e, st, f, dg) ==> StageSound(e, Step(e, st, f, dg).next)
  {
    hide Step, TrialPoint;
    if st.stage1 { FirstStageStep(e, st, f, dg); } else { LaterStep(e, st, f, dg); }
  }

  // ----- when no step is ever spoiled -----

  /** The slope at the trial is more than four thirds of the fall towards the far end. */
  lemma SteepTurnsInside(a: real, b: real, w: real)
    requires 0.0 <= b && 0.0 <= w && 4.0 * w < 3.0 * a
    ensures TurnsInside(a, b, w)
  {
    SquareMono(a / 4.0 + b, a + b - w);
    var p := SquareNonNeg(a / 4.0 - b);
    assert (a / 4.0 + b) * (a / 4.0 + b) == p + a * b;
  }

  /** With gtol at least four times ftol no step is spoiled. */
  lemma NeverSpoiled(e: Env, st: State, f: real, dg: real)
    requires StageParams(e) && 0.0 <= e.p.ftol && 4.0 * e.p.ftol <= e.p.gtol && StepRange(e.p)
    requires StageOne(e, st) && StageSound(e, st) && (st.b.brackt || st.b.x < TrialPoint(e, st))
    requires Step(e, st, f, dg).More?
    ensures !Spoiled(e, st, f, dg)
  {
    hide Step, TrialPoint, Bracketed, TurnsInside;
    var t, b := TrialPoint(e, st), st.b;
    Going(e, st, f, dg);
    StageOneSigns(e);
    if b.brackt && st.stage1 && f <= e.FTest(t) && f <= b.fx && dg <= b.dx && b.fy <= f && b.dy <= 0.0 {
      var w := Quot((f - b.fy) * 3.0, b.y - t);
      FallBelow(t, f, b.y, b.fy, e.finit, e.DgTest());
      FourTimes(e.p.ftol, e.p.gtol, -e.dginit);
      SteepTurnsInside(-dg, -b.dy, w);
    }
  }

  lemma FourTimes(ftol: real, gtol: real, g: real)
    requires 4.0 * ftol <= gtol && 0.0 < g
    ensures -4.0 * Mul(ftol, -g) <= Mul(gtol, g)
  {
    var p := MulNonNeg(gtol - 4.0 * ftol, g);
  }

  /** From below the line of slope m to above it, the fall is less than the line's. */
  lemma FallBelow(t: real, f: real, y: real, fy: real, finit: real, m: real)
    requires t < y && fy <= f && f <= finit + Mul(t, m) && finit + Mul(y, m) < fy
    ensures 0.0 <= Quot((f - fy) * 3.0, y - t) < -3.0 * m
  {
    var w := Quot((f - fy) * 3.0, y - t);
    assert w * (y - t) == (f - fy) * 3.0;
    assert f - fy < -m * (y - t);
    if w < 0.0 { var _ := MulPos(-w, y - t); }
    if -3.0 * m <= w { var _ := MulNonNeg(w + 3.0 * m, y - t); }
  }

  // ----- whole searches -----

  /** The search along phi goes on after evaluation k. */
  ghost predicate GoesOn(e: Env, stp0: real, phi: real -> real, dphi: real -> real, k: nat) {
    Reach(e, stp0, phi, dphi, k).More? && Reach(e, stp0, phi, dphi, k + 1).More?
  }

  ghost predicate CleanAt(e: Env, stp0: real, phi: real -> real, dphi: real -> real, k: nat)
    requires GoesOn(e, stp0, phi, dphi, k)
  {
    var st := Reach(e, stp0, phi, dphi, k).next;
    CleanStep(e, st, phi(TrialPoint(e, st)), dphi(TrialPoint(e, st)))
  }

  /** A search from a descent direction that meets no zero slope before evaluation k has ended. */
  ghost predicate Search(e: Env, stp0: real, phi: real -> real, dphi: real -> real, k: nat) {
    && IsSqrt(e.sqrt) && StepRange(e.p) && 0.0 <= e.p.ftol && 0.0 <= e.p.gtol
    && e.finit == phi(0.0) && e.dginit == dphi(0.0) < 0.0 && 0.0 < stp0 && e.p.minStep <= stp0
    && forall i: nat :: i <= k && Reach(e, stp0, phi, dphi, i).More? ==>
         Sloped(e, Reach(e, stp0, phi, dphi, i).next, dphi)
  }

  ghost predicate Sloped(e: Env, st: State, dphi: real -> real) {
    dphi(TrialPoint(e, st)) != 0.0
  }

  /** Before bracketing a search that goes on has moved: a trial clipped to max_step twice ends it. */
  lemma Moved(e: Env, st: State, phi: real -> real, dphi: real -> real)
    requires StageParams(e) && 0.0 <= e.p.ftol && StepRange(e.p) && StageOne(e, st) && StageSound(e, st)
    requires InRange(e, st) && Exact(st, phi, dphi)
    requires Step(e, st, phi(TrialPoint(e, st)), dphi(TrialPoint(e, st))).More?
    ensures st.b.brackt || st.b.x < TrialPoint(e, st)
  {
    hide UpdateInterval, Mul, StageOneEnds, Bracketed;
  }

  /** With gtol at least four times ftol every search stays sound and every step of it clean. */
  lemma {:induction false} SoundRun(e: Env, stp0: real, phi: real -> real, dphi: real -> real, k: nat)
    requires Search(e, stp0, phi, dphi, k) && e.p.ftol < 1.0 && 4.0 * e.p.ftol <= e.p.gtol
    requires Reach(e, stp0, phi, dphi, k).More?
    ensures StageSound(e, Reach(e, stp0, phi, dphi, k).next)
    ensures GoesOn(e, stp0, phi, dphi, k) ==> CleanAt(e, stp0, phi, dphi, k)
  {
    hide Step, StageSound, StageOne, Sloped, Exact, InRange, TrialPoint, CleanStep, IsSqrt;
    ReachableInvariant(e, stp0, phi, dphi, k);
    if k == 0 {
      SoundStart(e, stp0);
    } else {
      SoundRun(e, stp0, phi, dphi, k - 1);
      var before := Reach(e, stp0, phi, dphi, k - 1).next;
      ReachableInvariant(e, stp0, phi, dphi, k - 1);
      SoundNext(e, before, phi, dphi);
    }
    if GoesOn(e, stp0, phi, dphi, k) { SoundNext(e, Reach(e, stp0, phi, dphi, k).next, phi, dphi); }
  }

  lemma SoundStart(e: Env, stp0: real)
    requires 0.0 < stp0 && e.p.minStep <= stp0
    ensures StageSound(e, Init(e, stp0))
  {}

  lemma SoundNext(e: Env, st: State, phi: real -> real, dphi: real -> real)
    requires IsSqrt(e.sqrt) && StageParams(e) && 0.0 <= e.p.ftol && 4.0 * e.p.ftol <= e.p.gtol && StepRange(e.p)
    requires StageOne(e, st) && StageSound(e, st) && InRange(e, st) && Exact(st, phi, dphi) && Sloped(e, st, dphi)
    requires Step(e, st, phi(TrialPoint(e, st)), dphi(TrialPoint(e, st))).More?
    ensures StageSound(e, Step(e, st, phi(TrialPoint(e, st)), dphi(TrialPoint(e, st))).next)
    ensures CleanStep(e, st, phi(TrialPoint(e, st)), dphi(TrialPoint(e, st)))
  {
    hide Step, StageSound, StageOne, Exact, InRange, TrialPoint, CleanStep, Spoiled;
    Moved(e, st, phi, dphi);
    NeverSpoiled(e, st, phi(TrialPoint(e, st)), dphi(TrialPoint(e, st)));
    StageStep(e, st, phi(TrialPoint(e, st)), dphi(TrialPoint(e, st)));
  }

  // ----- searches that fail -----

  /** Parameters with the given tolerances and room for a few steps. */
  function Roomy(ftol: real, gtol: real): Params {
    Params(1, 0.0, 0, 0.0, 0, LINESEARCH_MORETHUENTE, 10, 0.0, 100.0, ftol, 0.0, gtol, 0.0, 0.0, 0, -1)
  }

  function Line(ftol: real, gtol: real, sqrt: real -> real): Env {
    Env(0.0, -1.0, Roomy(ftol, gtol), sqrt)
  }

  lemma LineTest(ftol: real, gtol: real, sqrt: real -> real, t: real)
    ensures var e := Line(ftol, gtol, sqrt);
      e.DgTest() == -ftol && e.FTest(t) == -(ftol * t) && Mul(e.p.gtol, -e.dginit) == gtol && Mul(e.p.xtol, t) == 0.0
  {}

  /** The slope of the spoiled run: beyond gtol, and between three and four times ftol. */
  function Steepness(ftol: real, gtol: real): real {
    (Max2(2.0 * ftol, gtol) + 4.0 * ftol) / 2.0
  }

  /** The first evaluation, at 1, lies on the line of sufficient decrease, with a steep slope. */
  lemma SpoiledFirst(c: real, gtol: real, sqrt: real -> real) returns (s: State)
    requires IsSqrt(sqrt) && 0.0 < c && 0.0 <= gtol < 4.0 * c
    ensures var a := Steepness(c, gtol);
      && Step(Line(c, gtol, sqrt), Init(Line(c, gtol, sqrt), 1.0), -c, -a) == More(s)
      && TrialPoint(Line(c, gtol, sqrt), Init(Line(c, gtol, sqrt), 1.0)) == 1.0
      && !s.b.brackt && s.stage1 && s.uinfo == 0 && s.count == 1
      && s.b.x == 1.0 && s.b.fx == -c && s.b.dx == -a && 1.0 < s.b.t <= 5.0
  {
    var e, a := Line(c, gtol, sqrt), Steepness(c, gtol);
    var st := Init(e, 1.0);
    LineTest(c, gtol, sqrt, 1.0);
    var b := st.b.(t := 1.0, ft := -c, dt := -a);
    assert TrialPoint(e, st) == 1.0;
    assert !StageOneEnds(e, 1.0, -c, -a);
    assert Verdict(e, st, 1.0, -c, -a) == 0;
    s := Step(e, st, -c, -a).next;
    AfterStep(e, st, -c, -a);
    MoveOn(b, StepMin(st.b), StepMax(st.b), sqrt);
    hide UpdateTrial, Mul, FallBack, Clean;
  }

  /** How far above the line, per unit of length, the second value lies. */
  function Lift(c: real, gtol: real): real {
    0.3 * (c - Steepness(c, gtol) / 4.0)
  }

  function SecondValue(c: real, gtol: real, t: real): real {
    Lift(c, gtol) * (t - 1.0) - c * t
  }

  /** The second evaluation lies a little above the line: the first stage goes through the modified
      function, and the bracket gets a lower far end. */
  lemma SpoiledSecond(c: real, gtol: real, sqrt: real -> real, s: State) returns (n: State)
    requires IsSqrt(sqrt) && 0.0 < c && 0.0 <= gtol < 4.0 * c
    requires var a := Steepness(c, gtol);
      && !s.b.brackt && s.stage1 && s.uinfo == 0 && s.count == 1
      && s.b.x == 1.0 && s.b.fx == -c && s.b.dx == -a && 1.0 < s.b.t <= 5.0
    ensures var e, a, f := Line(c, gtol, sqrt), Steepness(c, gtol), SecondValue(c, gtol, s.b.t);
      && TrialPoint(e, s) == s.b.t && Step(e, s, f, -a / 4.0) == More(n)
      && n.b.brackt && n.stage1 && n.uinfo == 0 && n.count == 2
      && n.b.x == 1.0 && n.b.fx == -c && n.b.dx == -a
      && n.b.y == s.b.t && n.b.fy == f && n.b.dy == -a / 4.0
      && 1.0 < n.b.t <= 1.0 + 0.66 * (s.b.t - 1.0)
  {
    var e, a, t, f := Line(c, gtol, sqrt), Steepness(c, gtol), s.b.t, SecondValue(c, gtol, s.b.t);
    var lift := MulPos(Lift(c, gtol), t - 1.0);
    var fall := MulNonNeg(c - Lift(c, gtol), t - 1.0);
    LineTest(c, gtol, sqrt, t);
    LineTest(c, gtol, sqrt, 1.0);
    var b := s.b.(t := t, ft := f, dt := -a / 4.0);
    assert TrialPoint(e, s) == t;
    assert UsesModified(e, true, b);
    assert Verdict(e, s, t, f, -a / 4.0) == 0;
    var m := Modified(e, b);
    assert m.fx == 0.0 && m.ft == lift && m.dx == c - a by { assert Mul(1.0, -c) == -c && Mul(t, -c) == -(c * t); }
    n := Step(e, s, f, -a / 4.0).next;
    AfterStep(e, s, f, -a / 4.0);
    TurnBack(m, StepMin(s.b), StepMax(s.b), sqrt);
    hide UpdateTrial, Mul, FallBack, Clean, Bracketed, Lift, SecondValue;
  }

  /** The third evaluation is back on the line and as steep as the first: the cubic towards the far end
      has no root. */
  lemma SpoiledThird(c: real, gtol: real, sqrt: real -> real, y: real, s: State, f: real)
    requires IsSqrt(sqrt) && 0.0 < c && 0.0 <= gtol < 4.0 * c && 1.0 < y <= 5.0 && f == -c * s.b.t
    requires var a := Steepness(c, gtol);
      && s.b.brackt && s.stage1 && s.uinfo == 0 && s.count == 2
      && s.b.x == 1.0 && s.b.fx == -c && s.b.dx == -a
      && s.b.y == y && s.b.fy == SecondValue(c, gtol, y) && s.b.dy == -a / 4.0
      && 1.0 < s.b.t <= 1.0 + 0.66 * (y - 1.0)
    ensures var e, a := Line(c, gtol, sqrt), Steepness(c, gtol);
      && TrialPoint(e, s) == s.b.t && Step(e, s, f, -a).More?
      && NegativeRoot(Handed(e, s, f, -a)) && !CleanStep(e, s, f, -a)
  {
    var e, a, t := Line(c, gtol, sqrt), Steepness(c, gtol), s.b.t;
    NoRoot(c, gtol, t, y, f);
    assert gtol < a && c < a;
    hide Lift, SecondValue, NegativeDisc, Steepness, Step, TrialPoint, Handed;
    ThirdGoesOn(c, gtol, sqrt, a, s, f);
    EqualSlopes(Handed(e, s, f, -a), StepMin(s.b), StepMax(s.b), sqrt);
  }

  lemma EqualSlopes(b: Trial, tmin: real, tmax: real, sqrt: real -> real)
    requires b.brackt && b.ft <= b.fx && b.dt == b.dx < 0.0 && NegativeDisc(b.t, b.ft, b.dt, b.y, b.fy, b.dy)
    ensures NegativeRoot(b) && !Clean(b, tmin, tmax, sqrt)
  {
    SignsDifferMeaning(b.dt, b.dx);
    hide UpdateTrial, NegativeDisc, SignsDiffer;
  }

  lemma ThirdGoesOn(c: real, gtol: real, sqrt: real -> real, a: real, s: State, f: real)
    requires f == -c * s.b.t && 0.0 < c && 0.0 <= gtol < a && c < a
    requires s.b.brackt && s.stage1 && s.uinfo == 0 && s.count == 2 && s.b.x == 1.0 && s.b.fx == -c
    requires 1.0 < s.b.t < s.b.y <= 5.0
    ensures var e, t := Line(c, gtol, sqrt), s.b.t;
      && TrialPoint(e, s) == t && Step(e, s, f, -a).More?
      && Handed(e, s, f, -a) == s.b.(ft := f, dt := -a) && f <= -c
  {
    var e, t := Line(c, gtol, sqrt), s.b.t;
    var fall := MulPos(c, t - 1.0);
    LineTest(c, gtol, sqrt, t);
    LineTest(c, gtol, sqrt, s.b.y);
    hide UpdateInterval, Mul;
    assert TrialPoint(e, s) == t;
    assert Verdict(e, s, t, f, -a) == 0;
  }

  lemma NoRoot(c: real, gtol: real, t: real, y: real, f: real)
    requires f == -c * t && 0.0 < c && 0.0 <= gtol < 4.0 * c && 1.0 < t <= 1.0 + 0.66 * (y - 1.0)
    ensures var a := Steepness(c, gtol); NegativeDisc(t, f, -a, y, SecondValue(c, gtol, y), -a / 4.0)
  {
    var a, lift, fy := Steepness(c, gtol), Lift(c, gtol), SecondValue(c, gtol, y);
    assert 3.0 * c <= a < 4.0 * c && lift == 0.3 * (c - a / 4.0);
    var fall := LastFall(c, lift, t, y, f, fy);
    hide *;
    NoRootAt(c, a, lift, t, y, f, fy, fall);
  }

  lemma LastFall(c: real, lift: real, t: real, y: real, f: real, fy: real) returns (fall: real)
    requires f == -c * t && fy == -c * y + lift * (y - 1.0)
    ensures fall == f - fy == c * (y - t) - lift * (y - 1.0)
  {
    fall := f - fy;
  }

  lemma NoRootAt(c: real, a: real, lift: real, t: real, y: real, f: real, fy: real, fall: real)
    requires 3.0 * c <= a < 4.0 * c && lift == 0.3 * (c - a / 4.0) && 1.0 < t <= 1.0 + 0.66 * (y - 1.0)
    requires fall == f - fy == c * (y - t) - lift * (y - 1.0)
    ensures NegativeDisc(t, f, -a, y, fy, -a / 4.0)
  {
    hide Quot, NegativeDisc;
    var w := TripleRatio(fall, y - t);
    FallRange(c, a, lift, t, y, w);
    LowerDisc(t, f, -a, y, fy, -a / 4.0);
    ShortOfRoot(a, w);
  }

  lemma TripleRatio(fall: real, d: real) returns (w: real)
    requires d != 0.0
    ensures w == Quot(fall * 3.0, d) && w * d == 3.0 * fall
  {
    w := Quot(fall * 3.0, d);
  }

  lemma ShortOfRoot(a: real, w: real)
    requires 3.0 * a / 4.0 < w <= a
    ensures (a + a / 4.0 - w) * (a + a / 4.0 - w) < a * (a / 4.0)
  {
    SquareMonoStrict(a + a / 4.0 - w, a / 2.0);
  }

  /** The mean fall between the two last points. */
  lemma FallRange(c: real, a: real, lift: real, t: real, y: real, w: real)
    requires 3.0 * c <= a < 4.0 * c && lift == 0.3 * (c - a / 4.0) && 1.0 < t <= 1.0 + 0.66 * (y - 1.0)
    requires w * (y - t) == 3.0 * (c * (y - t) - lift * (y - 1.0))
    ensures 3.0 * a / 4.0 < w <= 3.0 * c && 0.0 <= c * (y - t) - lift * (y - 1.0)
  {
    var d := y - t;
    var p := MulNonNeg(lift, d - 0.34 * (y - 1.0));
    var q := MulPos(4.0 * c - a, d);
    var z := MulNonNeg(lift, y - 1.0);
    var r := MulPos(c, d);
    if w <= 3.0 * a / 4.0 { var _ := MulNonNeg(3.0 * a / 4.0 - w, d); }
    if 3.0 * c < w { var _ := MulPos(w - 3.0 * c, d); }
  }

  /** For every gtol below four times ftol there is a search whose third update takes a negative root. */
  lemma SpoiledRun(c: real, gtol: real, sqrt: real -> real) returns (phi: real -> real, dphi: real -> real)
    requires IsSqrt(sqrt) && 0.0 < c && 0.0 <= gtol < 4.0 * c
    ensures var e := Line(c, gtol, sqrt);
      Search(e, 1.0, phi, dphi, 2) && GoesOn(e, 1.0, phi, dphi, 2) && !CleanAt(e, 1.0, phi, dphi, 2)
  {
    hide Step, TrialPoint, CleanStep, SecondValue, Lift, IsSqrt;
    var e, a := Line(c, gtol, sqrt), Steepness(c, gtol);
    var s1 := SpoiledFirst(c, gtol, sqrt);
    var y := s1.b.t;
    var fy := SecondValue(c, gtol, y);
    var s2 := SpoiledSecond(c, gtol, sqrt, s1);
    var f := -c * s2.b.t;
    SpoiledThird(c, gtol, sqrt, y, s2, f);
    phi := t => if t == 0.0 then 0.0 else if t == 1.0 then -c else if t == y then fy else f;
    dphi := t => if t == 0.0 then -1.0 else if t == y then -a / 4.0 else -a;
    assert 0.0 < a;
    hide Steepness;
    ThreeSteps(e, phi, dphi, s1, s2);
  }

  lemma ThreeSteps(e: Env, phi: real -> real, dphi: real -> real, s1: State, s2: State)
    requires IsSqrt(e.sqrt) && StepRange(e.p) && 0.0 <= e.p.ftol && 0.0 <= e.p.gtol && e.p.minStep <= 1.0
    requires e.finit == phi(0.0) && e.dginit == dphi(0.0) < 0.0
    requires TrialPoint(e, Init(e, 1.0)) == 1.0 && Step(e, Init(e, 1.0), phi(1.0), dphi(1.0)) == More(s1)
    requires TrialPoint(e, s1) == s1.b.t && Step(e, s1, phi(s1.b.t), dphi(s1.b.t)) == More(s2)
    requires TrialPoint(e, s2) == s2.b.t && Step(e, s2, phi(s2.b.t), dphi(s2.b.t)).More?
    requires dphi(1.0) != 0.0 && dphi(s1.b.t) != 0.0 && dphi(s2.b.t) != 0.0
    requires !CleanStep(e, s2, phi(s2.b.t), dphi(s2.b.t))
    ensures Search(e, 1.0, phi, dphi, 2) && GoesOn(e, 1.0, phi, dphi, 2) && !CleanAt(e, 1.0, phi, dphi, 2)
  {
    hide Step, TrialPoint, CleanStep, IsSqrt, Init;
    ReachNone(e, 1.0, phi, dphi);
    ReachNext(e, 1.0, phi, dphi, 0);
    ReachNext(e, 1.0, phi, dphi, 1);
    ReachNext(e, 1.0, phi, dphi, 2);
    hide Reach;
    forall i: nat | i <= 2 && Reach(e, 1.0, phi, dphi, i).More?
      ensures Sloped(e, Reach(e, 1.0, phi, dphi, i).next, dphi)
    {
      assert i == 0 || i == 1 || i == 2;
    }
  }

  /** With ftol beyond one the first update can take a negative root; with ftol equal to one the next
      trial can fall back on the best step. */
  lemma LargeFtol(c: real, gtol: real, sqrt: real -> real) returns (f: real, dg: real)
    requires IsSqrt(sqrt) && 1.0 <= c && 0.0 <= gtol
    ensures dg != 0.0 && TrialPoint(Line(c, gtol, sqrt), Init(Line(c, gtol, sqrt), 1.0)) == 1.0
    ensures var e := Line(c, gtol, sqrt); Step(e, Init(e, 1.0), f, dg).More? && !CleanStep(e, Init(e, 1.0), f, dg)
  {
    var e := Line(c, gtol, sqrt);
    var st := Init(e, 1.0);
    f, dg := if c > 1.0 then -2.0 * c / 3.0 else -0.5, if c > 1.0 then 1.0 - c else -0.5;
    LineTest(c, gtol, sqrt, 1.0);
    hide UpdateTrial, Mul;
    assert TrialPoint(e, st) == 1.0;
    assert Verdict(e, st, 1.0, f, dg) == 0;
    var b := Handed(e, st, f, dg);
    assert b == Trial(0.0, 0.0, c - 1.0, 0.0, 0.0, c - 1.0, 1.0, f + c, dg + c, false);
    if c > 1.0 { RisingStart(b); } else { FlatStart(b, StepMin(st.b), StepMax(st.b), sqrt); }
  }

  lemma RisingStart(b: Trial)
    requires b.x == 0.0 && b.fx == 0.0 && 0.0 < b.dx && b.t == 1.0 && b.ft == (b.dx + 1.0) / 3.0 && b.dt == 1.0
    ensures NegativeRoot(b)
  {
    assert Theta(b.x, b.fx, b.dx, b.t, b.ft, b.dt) == 0.0;
    DiscSign(0.0, b.dx, b.dt);
    hide ScaledDisc, Magnitude, SignsDiffer;
  }

  lemma FlatStart(b: Trial, tmin: real, tmax: real, sqrt: real -> real)
    requires IsSqrt(sqrt) && !b.brackt && b.x == b.fx == b.dx == 0.0 && b.t == 1.0 && b.ft == 0.5 && b.dt == 0.5
    requires tmin == 0.0 && 0.0 < tmax
    ensures !Clean(b, tmin, tmax, sqrt)
  {
    hide IsSqrt, CubicMinimizer, QuadMinimizer, CubicMinimizer2, QuadMinimizer2, SignsDiffer, NegativeRoot;
    FlatCubic(sqrt);
    FlatQuad();
    assert Propose(b, tmin, tmax, sqrt) == Proposal(0.0, true, true);
    hide Propose;
  }

  lemma FlatQuad()
    ensures QuadMinimizer(0.0, 0.0, 0.0, 1.0, 0.5) == 0.0
  {}

  lemma FlatCubic(sqrt: real -> real)
    requires IsSqrt(sqrt)
    ensures CubicMinimizer(0.0, 0.0, 0.0, 1.0, 0.5, 0.5, sqrt) == 0.0
  {
    RootOfOne(sqrt);
    hide IsSqrt;
    var theta, gamma := Theta(0.0, 0.0, 0.0, 1.0, 0.5, 0.5), Gamma(0.0, 1.0, 0.0, 0.5, -1.0, sqrt);
    assert theta == -1.0;
    assert gamma == 1.0 by {
      assert Magnitude(-1.0, 0.0, 0.5) == 1.0;
      assert ScaledDisc(-1.0, 0.0, 0.5, 1.0) == 1.0;
      hide Magnitude, ScaledDisc;
    }
    hide Theta, Gamma;
    assert CubicRatio(0.0, 0.5, theta, gamma) == 0.0;
  }

  lemma RootOfOne(sqrt: real -> real)
    requires IsSqrt(sqrt)
    ensures sqrt(1.0) == 1.0
  {
    var r := sqrt(1.0);
    assert 0.0 <= r && r * r == 1.0 * 1.0;
    hide IsSqrt;
    SameSquare(r, 1.0);
  }

  lemma LargeFtolRun(c: real, gtol: real, sqrt: real -> real) returns (phi: real -> real, dphi: real -> real)
    requires IsSqrt(sqrt) && 1.0 <= c && 0.0 <= gtol
    ensures var e := Line(c, gtol, sqrt);
      Search(e, 1.0, phi, dphi, 0) && GoesOn(e, 1.0, phi, dphi, 0) && !CleanAt(e, 1.0, phi, dphi, 0)
  {
    var e := Line(c, gtol, sqrt);
    var f, dg := LargeFtol(c, gtol, sqrt);
    phi := t => if t == 1.0 then f else 0.0;
    dphi := t => if t == 1.0 then dg else -1.0;
    hide Step, TrialPoint, CleanStep;
    ReachNone(e, 1.0, phi, dphi);
    ReachNext(e, 1.0, phi, dphi, 0);
  }

  /** Every search with these tolerances is clean at every evaluation. */
  ghost predicate AlwaysClean(ftol: real, gtol: real) {
    forall e: Env, stp0: real, phi: real -> real, dphi: real -> real, k: nat ::
      e.p.ftol == ftol && e.p.gtol == gtol && Search(e, stp0, phi, dphi, k) && GoesOn(e, stp0, phi, dphi, k) ==>
        CleanAt(e, stp0, phi, dphi, k)
  }

  /** The search never takes a negative root nor leaves its bracket exactly when ftol is below one and
      gtol is at least four times ftol. */
  lemma CleanTolerances(ftol: real, gtol: real, sqrt: real -> real)
    requires IsSqrt(sqrt) && 0.0 <= ftol && 0.0 <= gtol
    ensures AlwaysClean(ftol, gtol) <==> ftol < 1.0 && 4.0 * ftol <= gtol
  {
    if ftol < 1.0 && 4.0 * ftol <= gtol {
      forall e: Env, stp0: real, phi: real -> real, dphi: real -> real, k: nat |
        e.p.ftol == ftol && e.p.gtol == gtol && Search(e, stp0, phi, dphi, k) && GoesOn(e, stp0, phi, dphi, k)
        ensures CleanAt(e, stp0, phi, dphi, k)
      {
        SoundRun(e, stp0, phi, dphi, k);
      }
    } else if 4.0 * ftol > gtol {
      var phi, dphi := SpoiledRun(ftol, gtol, sqrt);
    } else {
      var phi, dphi := LargeFtolRun(ftol, gtol, sqrt);
    }
  }
}
