/** line_search_morethuente of src/lbfgs.c, as a state machine over its evaluations and as the loop. */
module MoreThuente {
  import opened Interpolation
  import opened LbfgsCodes
  import opened TrialInterval
  import opened Vectors
  import opened Kernels
  import opened Objectives

  /** What stays fixed during one search. */
  datatype Env = Env(finit: real, dginit: real, p: Params, sqrt: real -> real) {
    function DgTest(): real { Mul(p.ftol, dginit) }
    function FTest(t: real): real { finit + Mul(t, DgTest()) }
  }

  /** The state at the top of the loop; b.t is the next step to try. */
  datatype State = State(b: Trial, stage1: bool, uinfo: int, width: real, prevWidth: real, count: nat)

  datatype Outcome = Done(ret: int) | More(next: State)

  function Init(e: Env, stp0: real): State {
    var w := e.p.maxStep - e.p.minStep;
    State(Trial(0.0, e.finit, e.dginit, 0.0, e.finit, e.dginit, stp0, e.finit, e.dginit, false), true, 0, w, 2.0 * w, 0)
  }

  function StepMin(b: Trial): real {
    if b.brackt then Min2(b.x, b.y) else b.x
  }

  function StepMax(b: Trial): real {
    if b.brackt then Max2(b.x, b.y) else b.t + 4.0 * (b.t - b.x)
  }

  function Clip(p: Params, t: real): real {
    var t1 := if t < p.minStep then p.minStep else t;
    if p.maxStep < t1 then p.maxStep else t1
  }

  /** The guard of the unusual termination, where the best step is evaluated once more. */
  predicate FallBack(e: Env, st: State, t: real) {
    var lo, hi := StepMin(st.b), StepMax(st.b);
    (st.b.brackt && (t <= lo || hi <= t || e.p.maxLinesearch <= st.count + 1 || st.uinfo != 0))
    || (st.b.brackt && hi - lo <= Mul(e.p.xtol, hi))
  }

  function TrialPoint(e: Env, st: State): real {
    var t := Clip(e.p, st.b.t);
    if FallBack(e, st, t) then st.b.x else t
  }

  /** The tests after an evaluation (f, dg) at step t; 0 means go on. */
  function Verdict(e: Env, st: State, t: real, f: real, dg: real): int {
    var lo, hi := StepMin(st.b), StepMax(st.b);
    if st.b.brackt && (t <= lo || hi <= t || st.uinfo != 0) then LBFGSERR_ROUNDING_ERROR
    else if t == e.p.maxStep && f <= e.FTest(t) && dg <= e.DgTest() then LBFGSERR_MAXIMUMSTEP
    else if t == e.p.minStep && (e.FTest(t) < f || e.DgTest() <= dg) then LBFGSERR_MINIMUMSTEP
    else if st.b.brackt && hi - lo <= Mul(e.p.xtol, hi) then LBFGSERR_WIDTHTOOSMALL
    else if e.p.maxLinesearch <= st.count + 1 then LBFGSERR_MAXIMUMLINESEARCH
    else if f <= e.FTest(t) && Abs(dg) <= Mul(e.p.gtol, -e.dginit) then st.count + 1
    else 0
  }

  predicate StageOneEnds(e: Env, t: real, f: real, dg: real) {
    f <= e.FTest(t) && Mul(Min2(e.p.ftol, e.p.gtol), e.dginit) <= dg
  }

  /** Values and slopes of the modified function f(t) - t * dgtest. */
  function Modified(e: Env, b: Trial): Trial {
    var m := e.DgTest();
    b.(fx := b.fx - Mul(b.x, m), dx := b.dx - m, fy := b.fy - Mul(b.y, m), dy := b.dy - m,
       ft := b.ft - Mul(b.t, m), dt := b.dt - m)
  }

  function Unmodified(e: Env, b: Trial, ft: real, dt: real): Trial {
    var m := e.DgTest();
    b.(fx := b.fx + Mul(b.x, m), dx := b.dx + m, fy := b.fy + Mul(b.y, m), dy := b.dy + m, ft := ft, dt := dt)
  }

  predicate UsesModified(e: Env, stage1: bool, b: Trial) {
    stage1 && e.FTest(b.t) < b.ft && b.ft <= b.fx
  }

  /** The update of the interval, through the modified function when the first stage asks for it. */
  function UpdateInterval(e: Env, stage1: bool, b: Trial, tmin: real, tmax: real): (int, Trial) {
    if UsesModified(e, stage1, b) then
      var (u, n) := UpdateTrial(Modified(e, b), tmin, tmax, e.sqrt);
      (u, Unmodified(e, n, b.ft, b.dt))
    else UpdateTrial(b, tmin, tmax, e.sqrt)
  }

  /** Forced decrease: bisect when two updates did not shrink the interval enough. */
  function ForceDecrease(st: State): State {
    if !st.b.brackt then st
    else
      var w := Abs(st.b.y - st.b.x);
      var t := if 0.66 * st.prevWidth <= w then st.b.x + 0.5 * (st.b.y - st.b.x) else st.b.t;
      st.(b := st.b.(t := t), prevWidth := st.width, width := w)
  }

  /** One turn of the loop, given what the objective returned at TrialPoint. */
  function Step(e: Env, st: State, f: real, dg: real): Outcome {
    var t := TrialPoint(e, st);
    var v := Verdict(e, st, t, f, dg);
    if v != 0 then Done(v)
    else
      var stage1 := st.stage1 && !StageOneEnds(e, t, f, dg);
      var b := st.b.(t := t, ft := f, dt := dg);
      var (u, n) := UpdateInterval(e, stage1, b, StepMin(st.b), StepMax(st.b));
      More(ForceDecrease(st.(b := n, stage1 := stage1, uinfo := u, count := st.count + 1)))
  }

  // ----- facts about one step -----

  lemma StepContinues(e: Env, st: State, f: real, dg: real)
    requires Step(e, st, f, dg).More?
    ensures !FallBack(e, st, Clip(e.p, st.b.t)) && TrialPoint(e, st) == Clip(e.p, st.b.t)
    ensures st.b.brackt ==> st.uinfo == 0 && Between(st.b.x, TrialPoint(e, st), st.b.y)
  {
    hide UpdateInterval, Mul, StageOneEnds;
  }

  /** Falling back to the best step always ends the search with an error. */
  lemma FallBackFails(e: Env, st: State, f: real, dg: real)
    requires FallBack(e, st, Clip(e.p, st.b.t))
    ensures Step(e, st, f, dg).Done? && Step(e, st, f, dg).ret < 0
  {
    hide UpdateInterval, Mul, StageOneEnds;
  }

  /** An error status from the interval update ends the search at the next evaluation. */
  lemma UpdateErrorIsFinal(e: Env, st: State, f: real, dg: real)
    requires st.b.brackt && st.uinfo != 0
    ensures Step(e, st, f, dg) == Done(LBFGSERR_ROUNDING_ERROR)
  {
    hide UpdateInterval, Mul, StageOneEnds;
  }

  /** A success is sufficient decrease with a small slope, before the last permitted evaluation. */
  lemma SuccessMeaning(e: Env, st: State, f: real, dg: real)
    requires Step(e, st, f, dg).Done? && 0 <= Step(e, st, f, dg).ret
    ensures var t := TrialPoint(e, st);
      && Step(e, st, f, dg).ret == st.count + 1 < e.p.maxLinesearch
      && f <= e.FTest(t) && Abs(dg) <= Mul(e.p.gtol, -e.dginit)
      && t == Clip(e.p, st.b.t)
  {
    hide UpdateInterval, Mul, StageOneEnds;
  }

  // ----- the answers, exactly -----

  /** Nothing but the two conditions stands between the step and a success: inside a bracket it is strictly
      inside, the last update went well and the bracket is wide enough; it is not a step at max_step on a
      slope still below the test slope, nor one at min_step on a slope no longer below it; and it is not the
      last permitted evaluation. */
  predicate Unobstructed(e: Env, st: State, t: real, dg: real) {
    && (st.b.brackt ==> Between(st.b.x, t, st.b.y) && st.uinfo == 0
                        && Mul(e.p.xtol, Max2(st.b.x, st.b.y)) < Abs(st.b.y - st.b.x))
    && !(t == e.p.maxStep && dg <= Mul(e.p.ftol, e.dginit))
    && !(t == e.p.minStep && Mul(e.p.ftol, e.dginit) <= dg)
    && st.count + 1 < e.p.maxLinesearch
  }

  /** Sufficient decrease and a small slope. */
  predicate Satisfies(e: Env, t: real, f: real, dg: real) {
    f <= e.finit + Mul(t, Mul(e.p.ftol, e.dginit)) && Abs(dg) <= Mul(e.p.gtol, -e.dginit)
  }

  /** A step succeeds exactly when it has sufficient decrease and a small slope and is unobstructed; a step
      that the search goes on from does not have both. */
  lemma SuccessExact(e: Env, st: State, f: real, dg: real)
    ensures var t, out := TrialPoint(e, st), Step(e, st, f, dg);
      && (out == Done(st.count + 1) <==> Satisfies(e, t, f, dg) && Unobstructed(e, st, t, dg))
      && (out.Done? && 0 <= out.ret ==> out.ret == st.count + 1 < e.p.maxLinesearch)
      && (out.More? ==> !Satisfies(e, t, f, dg))
  {
    hide UpdateInterval, Mul, StageOneEnds, Abs, FallBack;
    WidthBetweenEnds(st.b);
  }

  lemma WidthBetweenEnds(b: Trial)
    ensures Max2(b.x, b.y) - Min2(b.x, b.y) == Abs(b.y - b.x)
  {}

  /** What each error means. In a bracket an unusual end always evaluates the best step and reports a rounding
      error, also when the bracket is too narrow or the evaluations are used up; so the code for a narrow
      bracket is never returned, and the one for too many evaluations only without a bracket. */
  lemma ErrorExact(e: Env, st: State, f: real, dg: real)
    ensures var t, out := TrialPoint(e, st), Step(e, st, f, dg);
      var c, ftest, dgtest := Clip(e.p, st.b.t), e.finit + Mul(t, Mul(e.p.ftol, e.dginit)), Mul(e.p.ftol, e.dginit);
      var unusual := st.b.brackt
                     && (!Between(st.b.x, c, st.b.y) || st.uinfo != 0 || e.p.maxLinesearch <= st.count + 1
                         || Abs(st.b.y - st.b.x) <= Mul(e.p.xtol, Max2(st.b.x, st.b.y)));
      var high, low := t == e.p.maxStep && f <= ftest && dg <= dgtest, t == e.p.minStep && (ftest < f || dgtest <= dg);
      && t == (if unusual then st.b.x else c)
      && (out == Done(LBFGSERR_ROUNDING_ERROR) <==> unusual)
      && (out == Done(LBFGSERR_MAXIMUMSTEP) <==> !unusual && high)
      && (out == Done(LBFGSERR_MINIMUMSTEP) <==> !unusual && !high && low)
      && (out == Done(LBFGSERR_MAXIMUMLINESEARCH) <==>
          !unusual && !high && !low && !st.b.brackt && e.p.maxLinesearch <= st.count + 1)
      && (out.Done? && out.ret < 0 ==>
            out.ret == LBFGSERR_ROUNDING_ERROR || out.ret == LBFGSERR_MAXIMUMSTEP
            || out.ret == LBFGSERR_MINIMUMSTEP || out.ret == LBFGSERR_MAXIMUMLINESEARCH)
  {
    hide UpdateInterval, Mul, StageOneEnds, Clip;
    WidthBetweenEnds(st.b);
  }

  /** Clipping picks the permitted step nearest to the one proposed. */
  lemma ClipNearest(p: Params, t: real, z: real)
    requires p.minStep <= z <= p.maxStep
    ensures p.minStep <= Clip(p, t) <= p.maxStep && Abs(Clip(p, t) - t) <= Abs(z - t)
  {}

  /** The first stage ends with the first step of sufficient decrease whose slope is no longer below the
      smaller tolerance times the initial slope. */
  lemma StageExact(e: Env, st: State, f: real, dg: real)
    requires Step(e, st, f, dg).More?
    ensures Step(e, st, f, dg).next.stage1 <==>
            st.stage1 && (e.finit + Mul(TrialPoint(e, st), Mul(e.p.ftol, e.dginit)) < f
                          || dg < Mul(Min2(e.p.ftol, e.p.gtol), e.dginit))
  {
    hide UpdateInterval, Mul, Verdict, FallBack;
  }

  /** A point with its value and slope. */
  datatype Point = Point(t: real, f: real, d: real)

  function Best(b: Trial): Point { Point(b.x, b.fx, b.dx) }
  function Other(b: Trial): Point { Point(b.y, b.fy, b.dy) }
  function Current(b: Trial): Point { Point(b.t, b.ft, b.dt) }

  /** The ends of the new interval, with the values and slopes recorded for them. */
  ghost predicate EndsFrom(b: Trial, n: Trial) {
    || (Best(n) == Best(b) && Other(n) == Current(b))
    || (Best(n) == Current(b) && Other(n) == Best(b))
    || (Best(n) == Current(b) && Other(n) == Other(b))
  }

  lemma TrialEnds(b: Trial, tmin: real, tmax: real, sqrt: real -> real)
    ensures var (u, n) := UpdateTrial(b, tmin, tmax, sqrt);
      && (if u != 0 then n == b && b.brackt else EndsFrom(b, n))
      && (b.brackt ==> n.brackt)
      && (u == 0 && n.brackt && !b.brackt ==>
            (n.x == b.x && n.y == b.t) || (n.x == b.t && n.y == b.x))
      && (u == 0 ==> Best(n) == if b.fx < b.ft then Best(b) else Current(b))
  {
    ProposeFlags(b, tmin, tmax, sqrt);
    hide Propose, SignsDiffer, Safeguard;
  }

  /** Undoing the modified function restores the recorded values exactly. */
  lemma UpdateIntervalEnds(e: Env, stage1: bool, b: Trial, tmin: real, tmax: real)
    ensures var (u, n) := UpdateInterval(e, stage1, b, tmin, tmax);
      && (if u != 0 then b.brackt && Best(n) == Best(b) && Other(n) == Other(b) && n.brackt else EndsFrom(b, n))
      && (b.brackt ==> n.brackt)
      && (u == 0 && n.brackt && !b.brackt ==>
            (n.x == b.x && n.y == b.t) || (n.x == b.t && n.y == b.x))
  {
    TrialEnds(b, tmin, tmax, e.sqrt);
    TrialEnds(Modified(e, b), tmin, tmax, e.sqrt);
    hide UpdateTrial, Mul;
  }

  // ----- invariants over every run -----

  /** The parameter checks at the head of lbfgs() that matter here. */
  predicate StepRange(p: Params) {
    0.0 <= p.minStep <= p.maxStep
  }

  /** Every step the search remembers or tries lies in [0, max_step]. */
  ghost predicate InRange(e: Env, st: State) {
    0.0 <= st.b.x <= e.p.maxStep && 0.0 <= st.b.y <= e.p.maxStep
  }

  lemma InRangeInvariant(e: Env, st: State, f: real, dg: real)
    requires StepRange(e.p) && InRange(e, st)
    ensures 0.0 <= TrialPoint(e, st) <= e.p.maxStep
    ensures Step(e, st, f, dg).More? ==> InRange(e, Step(e, st, f, dg).next)
  {
    hide UpdateInterval, Mul, Verdict, StageOneEnds, FallBack;
    var t := TrialPoint(e, st);
    UpdateIntervalEnds(e, st.stage1 && !StageOneEnds(e, t, f, dg), st.b.(t := t, ft := f, dt := dg),
                       StepMin(st.b), StepMax(st.b));
  }

  /** The recorded values and slopes are those of the function being searched. */
  ghost predicate Exact(st: State, phi: real -> real, dphi: real -> real) {
    && st.b.fx == phi(st.b.x) && st.b.dx == dphi(st.b.x)
    && st.b.fy == phi(st.b.y) && st.b.dy == dphi(st.b.y)
  }

  /** ... also across the modified function, which is undone after use. */
  lemma ExactInvariant(e: Env, st: State, phi: real -> real, dphi: real -> real)
    requires Exact(st, phi, dphi)
    ensures var t := TrialPoint(e, st); var o := Step(e, st, phi(t), dphi(t));
            o.More? ==> Exact(o.next, phi, dphi)
  {
    hide UpdateInterval, Mul, Verdict, StageOneEnds, FallBack;
    var t := TrialPoint(e, st);
    UpdateIntervalEnds(e, st.stage1 && !StageOneEnds(e, t, phi(t), dphi(t)),
                       st.b.(t := t, ft := phi(t), dt := dphi(t)), StepMin(st.b), StepMax(st.b));
  }

  /** In the first stage the best step has sufficient decrease and a slope still below ftol times
      the initial one: the modified function is at most its initial value and decreasing there. */
  ghost predicate StageOne(e: Env, st: State) {
    st.stage1 ==> st.b.fx <= e.FTest(st.b.x) && st.b.dx < e.DgTest()
  }

  /** What the stage-1 argument asks of the parameters. */
  /** The update through the modified function chooses the trial that the function psi(t) = phi(t) - t * dgtest
      would get. */
  lemma ModifiedTrial(e: Env, b: Trial, tmin: real, tmax: real, phi: real -> real, dphi: real -> real,
                      psi: real -> real, dpsi: real -> real)
    requires UsesModified(e, true, b)
    requires b.fx == phi(b.x) && b.dx == dphi(b.x) && b.fy == phi(b.y) && b.dy == dphi(b.y)
    requires b.ft == phi(b.t) && b.dt == dphi(b.t)
    requires forall t :: psi(t) == phi(t) - Mul(t, Mul(e.p.ftol, e.dginit))
    requires forall t :: dpsi(t) == dphi(t) - Mul(e.p.ftol, e.dginit)
    ensures var c := Trial(b.x, psi(b.x), dpsi(b.x), b.y, psi(b.y), dpsi(b.y), b.t, psi(b.t), dpsi(b.t), b.brackt);
      var n := UpdateInterval(e, true, b, tmin, tmax).1;
      && n.t == UpdateTrial(c, tmin, tmax, e.sqrt).1.t
      && n.brackt == UpdateTrial(c, tmin, tmax, e.sqrt).1.brackt
  {
    hide UpdateTrial, Mul;
    assert Modified(e, b)
        == Trial(b.x, psi(b.x), dpsi(b.x), b.y, psi(b.y), dpsi(b.y), b.t, psi(b.t), dpsi(b.t), b.brackt);
  }

  predicate StageParams(e: Env) {
    e.dginit < 0.0 && e.p.ftol < 1.0 && e.p.ftol <= e.p.gtol
  }

  lemma StageOneInit(e: Env, stp0: real)
    requires StageParams(e)
    ensures StageOne(e, Init(e, stp0))
  {
    var p := MulPos(1.0 - e.p.ftol, -e.dginit);
  }

  /** A modified update in the first stage always sees a higher value ... */
  lemma ModifiedIsHigher(e: Env, b: Trial)
    requires b.fx <= e.FTest(b.x) && UsesModified(e, true, b)
    ensures Modified(e, b).fx < Modified(e, b).ft
  {
    hide Mul;
  }

  /** ... so it never moves the best step: the trial becomes the far end. */
  lemma ModifiedKeepsBest(e: Env, b: Trial, tmin: real, tmax: real)
    requires b.fx <= e.FTest(b.x) && UsesModified(e, true, b)
    ensures var (u, n) := UpdateInterval(e, true, b, tmin, tmax);
      Best(n) == Best(b) && (u == 0 ==> Other(n) == Current(b))
  {
    ModifiedIsHigher(e, b);
    HigherKeepsBest(Modified(e, b), tmin, tmax, e.sqrt);
    hide UpdateTrial, Mul;
  }

  lemma StageOneInvariant(e: Env, st: State, f: real, dg: real)
    requires StageParams(e) && StageOne(e, st)
    ensures Step(e, st, f, dg).More? ==> StageOne(e, Step(e, st, f, dg).next)
  {
    var t := TrialPoint(e, st);
    if Step(e, st, f, dg).More? && st.stage1 && !StageOneEnds(e, t, f, dg) {
      var b := st.b.(t := t, ft := f, dt := dg);
      var tmin, tmax := StepMin(st.b), StepMax(st.b);
      UpdateIntervalEnds(e, true, b, tmin, tmax);
      if UsesModified(e, true, b) {
        ModifiedKeepsBest(e, b, tmin, tmax);
      } else {
        TrialEnds(b, tmin, tmax, e.sqrt);
      }
      hide UpdateTrial, Mul, Verdict, FallBack;
    }
  }

  lemma HigherKeepsBest(b: Trial, tmin: real, tmax: real, sqrt: real -> real)
    requires b.fx < b.ft
    ensures var (u, n) := UpdateTrial(b, tmin, tmax, sqrt); Best(n) == Best(b) && (u == 0 ==> Other(n) == Current(b))
  {
    hide Propose, Safeguard;
  }

  // ----- contraction of the bracket -----

  function Width(b: Trial): real {
    Abs(b.y - b.x)
  }

  /** Once bracketed, the width field is the width of the interval. */
  predicate WidthKnown(st: State) {
    st.b.brackt ==> st.width == Width(st.b)
  }

  /** The step that is actually evaluated was raised to min_step. */
  predicate RaisedToMin(e: Env, st: State) {
    st.b.t < e.p.minStep
  }

  /** What the interval update makes of the trial, before a bisection may replace it. */
  function Updated(e: Env, st: State, f: real, dg: real): Trial {
    var t := TrialPoint(e, st);
    UpdateInterval(e, st.stage1 && !StageOneEnds(e, t, f, dg), st.b.(t := t, ft := f, dt := dg),
                   StepMin(st.b), StepMax(st.b)).1
  }

  /** One completed step of a bracketed search: the new interval is nested in the old one; bisection
      is forced exactly when the interval kept more than 0.66 of its width of two steps before; a
      bisected interval is halved by the next step. */
  lemma BracketedStep(e: Env, st: State, f: real, dg: real)
    requires StepRange(e.p) && InRange(e, st) && st.b.brackt && Step(e, st, f, dg).More?
    requires Step(e, st, f, dg).next.uinfo == 0
    ensures var n := Step(e, st, f, dg).next;
      && n.b.brackt && WidthKnown(n) && n.prevWidth == st.width
      && Min2(st.b.x, st.b.y) <= Min2(n.b.x, n.b.y) && Max2(n.b.x, n.b.y) <= Max2(st.b.x, st.b.y)
      && Width(n.b) <= Width(st.b)
      && n.b.t == (if 0.66 * st.prevWidth <= Width(n.b) then (n.b.x + n.b.y) / 2.0 else Updated(e, st, f, dg).t)
      && (st.b.t == (st.b.x + st.b.y) / 2.0 && !RaisedToMin(e, st) ==> Width(n.b) == Width(st.b) / 2.0)
  {
    StepContinues(e, st, f, dg);
    hide UpdateInterval, Mul, Verdict, StageOneEnds, FallBack;
    var t := TrialPoint(e, st);
    UpdateIntervalEnds(e, st.stage1 && !StageOneEnds(e, t, f, dg), st.b.(t := t, ft := f, dt := dg),
                       StepMin(st.b), StepMax(st.b));
  }

  /** Any three consecutive completed steps of a bracketed search leave at most 0.66 of the width,
      unless the third trial had to be raised to min_step. */
  lemma ThreeStepsContract(e: Env, s0: State, f0: real, d0: real, f1: real, d1: real, f2: real, d2: real)
    returns (s1: State, s2: State, s3: State)
    requires StepRange(e.p) && InRange(e, s0) && s0.b.brackt && WidthKnown(s0)
    requires Step(e, s0, f0, d0).More?
    requires Step(e, Step(e, s0, f0, d0).next, f1, d1).More?
    requires Step(e, Step(e, Step(e, s0, f0, d0).next, f1, d1).next, f2, d2).More?
    requires Step(e, Step(e, Step(e, s0, f0, d0).next, f1, d1).next, f2, d2).next.uinfo == 0
    ensures More(s1) == Step(e, s0, f0, d0) && More(s2) == Step(e, s1, f1, d1) && More(s3) == Step(e, s2, f2, d2)
    ensures Width(s3.b) <= Width(s2.b) <= Width(s1.b) <= Width(s0.b)
    ensures !RaisedToMin(e, s2) ==> Width(s3.b) <= 0.66 * Width(s0.b)
  {
    hide Step;
    s1 := Step(e, s0, f0, d0).next;
    s2 := Step(e, s1, f1, d1).next;
    s3 := Step(e, s2, f2, d2).next;
    StillBracketed(e, s0, f0, d0);
    StillBracketed(e, s1, f1, d1);
    if s1.uinfo != 0 { UpdateErrorIsFinal(e, s1, f1, d1); assert false; }
    if s2.uinfo != 0 { UpdateErrorIsFinal(e, s2, f2, d2); assert false; }
    BracketedStep(e, s0, f0, d0);
    InRangeInvariant(e, s0, f0, d0);
    BracketedStep(e, s1, f1, d1);
    InRangeInvariant(e, s1, f1, d1);
    BracketedStep(e, s2, f2, d2);
  }

  lemma StillBracketed(e: Env, st: State, f: real, dg: real)
    requires st.b.brackt && Step(e, st, f, dg).More?
    ensures Step(e, st, f, dg).next.b.brackt
  {
    hide UpdateInterval, Mul, Verdict, StageOneEnds, FallBack;
    var t := TrialPoint(e, st);
    UpdateIntervalEnds(e, st.stage1 && !StageOneEnds(e, t, f, dg), st.b.(t := t, ft := f, dt := dg),
                       StepMin(st.b), StepMax(st.b));
  }

  /** The width field is right in every state after the first bracketing. */
  lemma WidthKnownInvariant(e: Env, st: State, f: real, dg: real)
    requires Step(e, st, f, dg).More?
    ensures WidthKnown(Step(e, st, f, dg).next)
  {
    hide UpdateInterval, Mul, Verdict, StageOneEnds, FallBack;
  }

  // ----- reachable states -----

  /** The state before evaluation k of a search along the given line, if the search gets that far. */
  ghost function Reach(e: Env, stp0: real, phi: real -> real, dphi: real -> real, k: nat): Outcome {
    if k == 0 then More(Init(e, stp0))
    else
      match Reach(e, stp0, phi, dphi, k - 1)
      case Done(r) => Done(r)
      case More(st) => var t := TrialPoint(e, st); Step(e, st, phi(t), dphi(t))
  }

  /** The invariants hold in every state of every search. */
  lemma {:induction false} ReachableInvariant(e: Env, stp0: real, phi: real -> real, dphi: real -> real, k: nat)
    requires StepRange(e.p) && e.finit == phi(0.0) && e.dginit == dphi(0.0)
    requires Reach(e, stp0, phi, dphi, k).More?
    ensures var st := Reach(e, stp0, phi, dphi, k).next;
      && st.count == k
      && InRange(e, st) && Exact(st, phi, dphi) && WidthKnown(st)
      && (StageParams(e) ==> StageOne(e, st))
  {
    hide Step, StageOne, StageParams, TrialPoint;
    if k == 0 {
      if StageParams(e) { StageOneInit(e, stp0); }
    } else {
      ReachableInvariant(e, stp0, phi, dphi, k - 1);
      var st := Reach(e, stp0, phi, dphi, k - 1).next;
      var t := TrialPoint(e, st);
      CountAdvances(e, st, phi(t), dphi(t));
      InRangeInvariant(e, st, phi(t), dphi(t));
      ExactInvariant(e, st, phi, dphi);
      WidthKnownInvariant(e, st, phi(t), dphi(t));
      if StageParams(e) { StageOneInvariant(e, st, phi(t), dphi(t)); }
    }
  }

  lemma CountAdvances(e: Env, st: State, f: real, dg: real)
    requires Step(e, st, f, dg).More?
    ensures Step(e, st, f, dg).next.count == st.count + 1 < e.p.maxLinesearch
  {
    hide UpdateInterval, Mul, StageOneEnds, FallBack;
  }

  lemma BisectKeepsBracket(b: Trial, t: real)
    requires Bracketed(b) && t == b.x + 0.5 * (b.y - b.x)
    ensures Bracketed(b.(t := t))
  {
    NegativeProduct(b.dx, b.t - b.x);
    NegativeProduct(b.dx, t - b.x);
  }

  // ----- the loop -----

  ghost function Phi(obj: Objective, xp: Vec, s: Vec): real -> real
    requires |xp| == |s|
  {
    t => Value(obj, xp, s, t)
  }

  ghost function DPhi(obj: Objective, xp: Vec, s: Vec): real -> real
    requires |xp| == |s| && IsObjective(obj, |s|)
  {
    t => Slope(obj, xp, s, t)
  }

  /** Sufficient decrease and a small slope, for initial value finit and slope dginit. */
  ghost predicate Accepts(obj: Objective, xp: Vec, s: Vec, finit: real, dginit: real, p: Params, t: real)
    requires |xp| == |s| && IsObjective(obj, |s|)
  {
    && Value(obj, xp, s, t) <= finit + Mul(t, Mul(p.ftol, dginit))
    && Abs(Slope(obj, xp, s, t)) <= Mul(p.gtol, -dginit)
  }

  /** The search along xp + t s stops with ret at its evals-th evaluation, that of step stp. */
  ghost predicate EndsAt(obj: Objective, xp: Vec, s: Vec, e: Env, stp0: real, evals: nat, stp: real, ret: int)
    requires |xp| == |s| && IsObjective(obj, |s|) && 0 < evals
  {
    var r := Reach(e, stp0, Phi(obj, xp, s), DPhi(obj, xp, s), evals - 1);
    && r.More? && stp == TrialPoint(e, r.next)
    && Step(e, r.next, Value(obj, xp, s, stp), Slope(obj, xp, s, stp)) == Done(ret)
  }

  /** ... and in the state it is in then, nothing but the two conditions stands between stp and success. */
  ghost predicate Clear(obj: Objective, xp: Vec, s: Vec, e: Env, stp0: real, evals: nat, stp: real)
    requires |xp| == |s| && IsObjective(obj, |s|) && 0 < evals
  {
    var r := Reach(e, stp0, Phi(obj, xp, s), DPhi(obj, xp, s), evals - 1);
    r.More? && Unobstructed(e, r.next, stp, Slope(obj, xp, s, stp))
  }

  /** The answer of a search: success exactly for a step that is accepted and unobstructed. */
  lemma AnswerExact(obj: Objective, xp: Vec, s: Vec, e: Env, stp0: real, evals: nat, stp: real, ret: int)
    requires |xp| == |s| && IsObjective(obj, |s|) && 0 < evals && EndsAt(obj, xp, s, e, stp0, evals, stp, ret)
    ensures 0 <= ret <==> Accepts(obj, xp, s, e.finit, e.dginit, e.p, stp) && Clear(obj, xp, s, e, stp0, evals, stp)
    ensures 0 <= ret ==> ret == evals < e.p.maxLinesearch
    ensures ret == LBFGSERR_ROUNDING_ERROR || ret == LBFGSERR_MAXIMUMSTEP || ret == LBFGSERR_MINIMUMSTEP
            || ret == LBFGSERR_MAXIMUMLINESEARCH || ret == evals
  {
    hide Mul, Step, TrialPoint, Unobstructed, Satisfies, Accepts, Value, Slope, Reach, Phi, DPhi;
    var phi, dphi := Phi(obj, xp, s), DPhi(obj, xp, s);
    CountsEvaluations(e, stp0, phi, dphi, evals - 1);
    SatisfiesIsAccepts(obj, xp, s, e, stp);
    var st := Reach(e, stp0, phi, dphi, evals - 1).next;
    EndExact(e, st, Value(obj, xp, s, stp), Slope(obj, xp, s, stp), ret);
  }

  lemma EndExact(e: Env, st: State, f: real, dg: real, ret: int)
    requires Step(e, st, f, dg) == Done(ret)
    ensures 0 <= ret <==> Satisfies(e, TrialPoint(e, st), f, dg) && Unobstructed(e, st, TrialPoint(e, st), dg)
    ensures 0 <= ret ==> ret == st.count + 1 < e.p.maxLinesearch
    ensures ret == LBFGSERR_ROUNDING_ERROR || ret == LBFGSERR_MAXIMUMSTEP || ret == LBFGSERR_MINIMUMSTEP
            || ret == LBFGSERR_MAXIMUMLINESEARCH || ret == st.count + 1
  {
    hide Mul, Step, TrialPoint, Unobstructed, Satisfies;
    SuccessExact(e, st, f, dg);
    ErrorCodes(e, st, f, dg);
  }

  lemma SatisfiesIsAccepts(obj: Objective, xp: Vec, s: Vec, e: Env, t: real)
    requires |xp| == |s| && IsObjective(obj, |s|)
    ensures Accepts(obj, xp, s, e.finit, e.dginit, e.p, t)
            <==> Satisfies(e, t, Value(obj, xp, s, t), Slope(obj, xp, s, t))
  {
    hide Mul, Abs, Value, Slope;
  }

  lemma ErrorCodes(e: Env, st: State, f: real, dg: real)
    ensures var out := Step(e, st, f, dg);
      out.Done? && out.ret < 0 ==>
        out.ret == LBFGSERR_ROUNDING_ERROR || out.ret == LBFGSERR_MAXIMUMSTEP
        || out.ret == LBFGSERR_MINIMUMSTEP || out.ret == LBFGSERR_MAXIMUMLINESEARCH
  {
    hide Step, Mul, Clip, Abs, TrialPoint;
    ErrorExact(e, st, f, dg);
  }

  lemma {:induction false} CountsEvaluations(e: Env, stp0: real, phi: real -> real, dphi: real -> real, k: nat)
    requires Reach(e, stp0, phi, dphi, k).More?
    ensures Reach(e, stp0, phi, dphi, k).next.count == k
  {
    hide Step, TrialPoint;
    if k > 0 {
      CountsEvaluations(e, stp0, phi, dphi, k - 1);
      var st := Reach(e, stp0, phi, dphi, k - 1).next;
      CountAdvances(e, st, phi(TrialPoint(e, st)), dphi(TrialPoint(e, st)));
    }
  }

  /** No acceptable step is passed over: those evaluated before the last one were not acceptable. */
  lemma EarlierRejected(obj: Objective, xp: Vec, s: Vec, e: Env, stp0: real, evals: nat, i: nat)
    requires |xp| == |s| && IsObjective(obj, |s|) && i + 1 < evals
    requires Reach(e, stp0, Phi(obj, xp, s), DPhi(obj, xp, s), evals - 1).More?
    ensures Reach(e, stp0, Phi(obj, xp, s), DPhi(obj, xp, s), i).More?
    ensures var t := TrialPoint(e, Reach(e, stp0, Phi(obj, xp, s), DPhi(obj, xp, s), i).next);
            !Accepts(obj, xp, s, e.finit, e.dginit, e.p, t)
  {
    hide Mul, Step, TrialPoint, Satisfies, Accepts, Value, Slope, Reach, Phi, DPhi;
    var t := GoneOn(e, stp0, Phi(obj, xp, s), DPhi(obj, xp, s), i, evals - 1);
    AtStep(obj, xp, s, t);
    SatisfiesIsAccepts(obj, xp, s, e, t);
  }

  lemma AtStep(obj: Objective, xp: Vec, s: Vec, t: real)
    requires |xp| == |s| && IsObjective(obj, |s|)
    ensures Phi(obj, xp, s)(t) == Value(obj, xp, s, t) && DPhi(obj, xp, s)(t) == Slope(obj, xp, s, t)
  {}

  lemma GoneOn(e: Env, stp0: real, phi: real -> real, dphi: real -> real, i: nat, k: nat) returns (t: real)
    requires i < k && Reach(e, stp0, phi, dphi, k).More?
    ensures Reach(e, stp0, phi, dphi, i).More?
    ensures t == TrialPoint(e, Reach(e, stp0, phi, dphi, i).next) && !Satisfies(e, t, phi(t), dphi(t))
  {
    hide Mul, Step, TrialPoint, Satisfies, Reach, Unobstructed;
    ReachBefore(e, stp0, phi, dphi, i, k);
    ReachBefore(e, stp0, phi, dphi, i + 1, k);
    ReachNext(e, stp0, phi, dphi, i);
    var st := Reach(e, stp0, phi, dphi, i).next;
    t := TrialPoint(e, st);
    SuccessExact(e, st, phi(t), dphi(t));
  }

  lemma {:induction false} ReachBefore(e: Env, stp0: real, phi: real -> real, dphi: real -> real, i: nat, k: nat)
    requires i <= k && Reach(e, stp0, phi, dphi, k).More?
    ensures Reach(e, stp0, phi, dphi, i).More?
  {
    hide Step, TrialPoint;
    if i < k { ReachBefore(e, stp0, phi, dphi, i, k - 1); }
  }

  /** So a search has one answer. */
  lemma OneAnswer(obj: Objective, xp: Vec, s: Vec, e: Env, stp0: real, k1: nat, t1: real, r1: int,
                  k2: nat, t2: real, r2: int)
    requires |xp| == |s| && IsObjective(obj, |s|) && 0 < k1 <= k2
    requires EndsAt(obj, xp, s, e, stp0, k1, t1, r1) && EndsAt(obj, xp, s, e, stp0, k2, t2, r2)
    ensures k1 == k2 && t1 == t2 && r1 == r2
  {
    hide Step, TrialPoint, Value, Slope;
    var phi, dphi := Phi(obj, xp, s), DPhi(obj, xp, s);
    if k1 < k2 {
      ReachNext(e, stp0, phi, dphi, k1 - 1);
      ReachBefore(e, stp0, phi, dphi, k1, k2 - 1);
    }
  }

  /** The choice between the modified function and the function itself. */
  method UpdateFunction(stx0: real, fx0: real, dgx0: real, sty0: real, fy0: real, dgy0: real,
                        stp0: real, f: real, dg: real, stmin: real, stmax: real, brackt0: bool,
                        stage1: bool, finit: real, dgtest: real, ghost e: Env, sqrt: real -> real)
    returns (uinfo: int, stx: real, fx: real, dgx: real, sty: real, fy: real, dgy: real, stp: real, brackt: bool)
    requires e.finit == finit && e.DgTest() == dgtest && e.sqrt == sqrt
    ensures (uinfo, Trial(stx, fx, dgx, sty, fy, dgy, stp, f, dg, brackt))
         == UpdateInterval(e, stage1, Trial(stx0, fx0, dgx0, sty0, fy0, dgy0, stp0, f, dg, brackt0), stmin, stmax)
  {
    hide Mul, UpdateTrial;
    stx, fx, dgx, sty, fy, dgy, stp, brackt := stx0, fx0, dgx0, sty0, fy0, dgy0, stp0, brackt0;
    ghost var b := Trial(stx, fx, dgx, sty, fy, dgy, stp, f, dg, brackt);
    UpdateKeepsCurrent(b, stmin, stmax, sqrt);
    UpdateKeepsCurrent(Modified(e, b), stmin, stmax, sqrt);
    var ftest1 := finit + Mul(stp, dgtest);
    if stage1 && ftest1 < f && f <= fx {
      var fm, fxm, fym := f - Mul(stp, dgtest), fx - Mul(stx, dgtest), fy - Mul(sty, dgtest);
      var dgm, dgxm, dgym := dg - dgtest, dgx - dgtest, dgy - dgtest;
      uinfo, stx, fxm, dgxm, sty, fym, dgym, stp, brackt :=
        UpdateTrialInterval(stx, fxm, dgxm, sty, fym, dgym, stp, fm, dgm, stmin, stmax, brackt, sqrt);
      fx, fy := fxm + Mul(stx, dgtest), fym + Mul(sty, dgtest);
      dgx, dgy := dgxm + dgtest, dgym + dgtest;
    } else {
      uinfo, stx, fx, dgx, sty, fy, dgy, stp, brackt :=
        UpdateTrialInterval(stx, fx, dgx, sty, fy, dgy, stp, f, dg, stmin, stmax, brackt, sqrt);
    }
  }

  lemma UpdateKeepsCurrent(b: Trial, tmin: real, tmax: real, sqrt: real -> real)
    ensures UpdateTrial(b, tmin, tmax, sqrt).1.ft == b.ft && UpdateTrial(b, tmin, tmax, sqrt).1.dt == b.dt
  {
    hide Propose, Safeguard;
  }

  lemma StepUnfolds(e: Env, st: State, f: real, dg: real, stage1: bool, u: int, n: Trial)
    requires var t := TrialPoint(e, st);
      && Verdict(e, st, t, f, dg) == 0
      && stage1 == (st.stage1 && !StageOneEnds(e, t, f, dg))
      && (u, n) == UpdateInterval(e, stage1, st.b.(t := t, ft := f, dt := dg), StepMin(st.b), StepMax(st.b))
    ensures Step(e, st, f, dg)
         == More(ForceDecrease(st.(b := n, stage1 := stage1, uinfo := u, count := st.count + 1)))
    ensures st.count + 1 < e.p.maxLinesearch
  {
    hide UpdateInterval, StageOneEnds, FallBack;
  }

  lemma StepStops(e: Env, st: State, f: real, dg: real)
    requires Verdict(e, st, TrialPoint(e, st), f, dg) != 0
    ensures var v := Verdict(e, st, TrialPoint(e, st), f, dg);
      && Step(e, st, f, dg) == Done(v)
      && v != LBFGSERR_INVALIDPARAMETERS && v != LBFGSERR_INCREASEGRADIENT
      && (0 <= v ==> v == st.count + 1 < e.p.maxLinesearch
                     && f <= e.FTest(TrialPoint(e, st)) && Abs(dg) <= Mul(e.p.gtol, -e.dginit))
  {
    hide UpdateInterval, StageOneEnds, Mul;
  }

  /** The tests for errors and convergence, in order; 0 when none applies. */
  method CheckStep(ghost e: Env, ghost st: State, stp: real, f: real, dg: real, stmin: real, stmax: real,
                   brackt: bool, uinfo: int, ftest1: real, dgtest: real, dginit: real, count: int, p: Params)
    returns (v: int)
    requires e.p == p && e.dginit == dginit && e.DgTest() == dgtest && e.FTest(stp) == ftest1
    requires st.b.brackt == brackt && st.uinfo == uinfo && st.count + 1 == count
    requires StepMin(st.b) == stmin && StepMax(st.b) == stmax
    ensures v == Verdict(e, st, stp, f, dg)
  {
    hide Mul, StepMin, StepMax;
    if brackt && (stp <= stmin || stmax <= stp || uinfo != 0) { return LBFGSERR_ROUNDING_ERROR; }
    if stp == p.maxStep && f <= ftest1 && dg <= dgtest { return LBFGSERR_MAXIMUMSTEP; }
    if stp == p.minStep && (ftest1 < f || dgtest <= dg) { return LBFGSERR_MINIMUMSTEP; }
    if brackt && stmax - stmin <= Mul(p.xtol, stmax) { return LBFGSERR_WIDTHTOOSMALL; }
    if p.maxLinesearch <= count { return LBFGSERR_MAXIMUMLINESEARCH; }
    if f <= ftest1 && Abs(dg) <= Mul(p.gtol, -dginit) { return count; }
    return 0;
  }

  /** The head of the loop: the present interval, then the clipped step, or the best one so far. */
  method ChooseStep(ghost e: Env, ghost st: State, stx: real, sty: real, stp0: real, brackt: bool,
                    uinfo: int, count: nat, p: Params)
    returns (stmin: real, stmax: real, stp: real)
    requires e.p == p && st.b.x == stx && st.b.y == sty && st.b.t == stp0 && st.b.brackt == brackt
    requires st.uinfo == uinfo && st.count == count
    ensures stmin == StepMin(st.b) && stmax == StepMax(st.b) && stp == TrialPoint(e, st)
  {
    hide Mul;
    stp := stp0;
    if brackt {
      stmin, stmax := Min2(stx, sty), Max2(stx, sty);
    } else {
      stmin, stmax := stx, stp + 4.0 * (stp - stx);
    }
    if stp < p.minStep { stp := p.minStep; }
    if p.maxStep < stp { stp := p.maxStep; }
    if (brackt && (stp <= stmin || stmax <= stp || p.maxLinesearch <= count + 1 || uinfo != 0))
       || (brackt && stmax - stmin <= Mul(p.xtol, stmax))
    {
      stp := stx;
    }
  }

  lemma ReachNone(e: Env, stp0: real, phi: real -> real, dphi: real -> real)
    ensures Reach(e, stp0, phi, dphi, 0) == More(Init(e, stp0))
  {}

  lemma ReachNext(e: Env, stp0: real, phi: real -> real, dphi: real -> real, k: nat)
    requires Reach(e, stp0, phi, dphi, k).More?
    ensures var st := Reach(e, stp0, phi, dphi, k).next;
            var t := TrialPoint(e, st);
            Reach(e, stp0, phi, dphi, k + 1) == Step(e, st, phi(t), dphi(t))
  {}

  lemma StageOneTest(e: Env, stage1: bool, t: real, f: real, dg: real)
    ensures StageOneEnds(e, t, f, dg) <==>
            f <= e.finit + Mul(t, Mul(e.p.ftol, e.dginit)) && Mul(Min2(e.p.ftol, e.p.gtol), e.dginit) <= dg
  {}

  /** The search runs the machine on the line xp + t s; a non-negative return is a step with
      sufficient decrease and a small slope, found in fewer than max_linesearch evaluations. */
  method LineSearchMoreThuente(x: array<real>, f0: real, g: array<real>, s: Vec, stp0: real, xp: Vec,
                               obj: Objective, p: Params, sqrt: real -> real)
    returns (ret: int, f: real, stp: real, evals: nat)
    requires x != g && x.Length == g.Length == |s| == |xp| && IsObjective(obj, |s|)
    modifies x, g
    ensures ret == LBFGSERR_INVALIDPARAMETERS <==> stp0 <= 0.0
    ensures ret == LBFGSERR_INCREASEGRADIENT <==> 0.0 < stp0 && 0.0 < Dot(old(g[..]), s)
    ensures evals == 0 || evals == 1 || evals <= p.maxLinesearch
    ensures var dg0 := Dot(old(g[..]), s);
      var e := Env(f0, dg0, p, sqrt);
      if evals == 0 then
        f == f0 && stp == stp0 && x[..] == old(x[..]) && g[..] == old(g[..])
        && (ret == LBFGSERR_INVALIDPARAMETERS || ret == LBFGSERR_INCREASEGRADIENT)
      else
        && 0.0 < stp0 && dg0 <= 0.0 && EndsAt(obj, xp, s, e, stp0, evals, stp, ret)
        && x[..] == Axpy(xp, stp, s) && f == obj.f(x[..]) && g[..] == obj.grad(x[..])
        && (0 <= ret <==> Accepts(obj, xp, s, f0, dg0, p, stp) && Clear(obj, xp, s, e, stp0, evals, stp))
        && (0 <= ret ==> ret == evals < p.maxLinesearch)
  {
    hide Mul, Dot, Axpy, UpdateInterval, Value, Slope, Step, Verdict, TrialPoint, StageOneEnds, StepMin, StepMax, Reach,
         Abs, Min2, Clip, IsObjective, Accepts, Clear;
    var count := 0;
    f, stp, evals := f0, stp0, 0;
    if stp <= 0.0 { return LBFGSERR_INVALIDPARAMETERS, f, stp, 0; }
    var dginit := VecDot(g[..], s);
    if 0.0 < dginit { return LBFGSERR_INCREASEGRADIENT, f, stp, 0; }
    var brackt, stage1, uinfo := false, true, 0;
    var finit := f;
    var dgtest := Mul(p.ftol, dginit);
    var width := p.maxStep - p.minStep;
    var prevWidth := 2.0 * width;
    var stx, sty := 0.0, 0.0;
    var fx, fy := finit, finit;
    var dgx, dgy := dginit, dginit;
    var dg := dginit;
    ghost var e := Env(finit, dginit, p, sqrt);
    ghost var phi, dphi := Phi(obj, xp, s), DPhi(obj, xp, s);
    ReachNone(e, stp0, phi, dphi);
    while true
      invariant 0 <= count && (count == 0 || count < p.maxLinesearch)
      invariant Reach(e, stp0, phi, dphi, count)
             == More(State(Trial(stx, fx, dgx, sty, fy, dgy, stp, f, dg, brackt), stage1, uinfo, width, prevWidth,
                           count))
      decreases p.maxLinesearch - count
    {
      ghost var st := Reach(e, stp0, phi, dphi, count).next;
      var stmin, stmax;
      stmin, stmax, stp := ChooseStep(e, st, stx, sty, stp, brackt, uinfo, count, p);
      f := EvaluateOnLine(x, g, xp, s, stp, obj);
      dg := VecDot(g[..], s);
      var ftest1 := finit + Mul(stp, dgtest);
      count := count + 1;
      evals := count;
      var verdict := CheckStep(e, st, stp, f, dg, stmin, stmax, brackt, uinfo, ftest1, dgtest, dginit, count, p);
      if verdict != 0 {
        StepStops(e, st, f, dg);
        AnswerExact(obj, xp, s, e, stp0, count, stp, verdict);
        return verdict, f, stp, count;
      }
      if stage1 && f <= ftest1 && Mul(Min2(p.ftol, p.gtol), dginit) <= dg { stage1 := false; }
      StageOneTest(e, st.stage1, stp, f, dg);
      uinfo, stx, fx, dgx, sty, fy, dgy, stp, brackt :=
        UpdateFunction(stx, fx, dgx, sty, fy, dgy, stp, f, dg, stmin, stmax, brackt, stage1, finit, dgtest, e, sqrt);
      ghost var b1 := Trial(stx, fx, dgx, sty, fy, dgy, stp, f, dg, brackt);
      ghost var st1 := State(b1, stage1, uinfo, width, prevWidth, count);
      StepUnfolds(e, st, f, dg, stage1, uinfo, st1.b);
      ReachNext(e, stp0, phi, dphi, count - 1);
      if brackt {
        if 0.66 * prevWidth <= Abs(sty - stx) { stp := stx + 0.5 * (sty - stx); }
        prevWidth := width;
        width := Abs(sty - stx);
      }
    }
  }
}
