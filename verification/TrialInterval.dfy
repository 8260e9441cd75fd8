/** update_trial_interval of src/lbfgs.c: one safeguarded step of the interval of uncertainty. */
module TrialInterval {
  import opened Interpolation
  import opened LbfgsCodes

  /** Best point x, other end y, trial point t, each with its value and slope. */
  datatype Trial = Trial(x: real, fx: real, dx: real, y: real, fy: real, dy: real,
                         t: real, ft: real, dt: real, brackt: bool)

  datatype Proposal = Proposal(newt: real, brackt: bool, bound: bool)

  /** The macro fsigndiff; a zero second argument makes the C expression a NaN comparison, false. */
  predicate SignsDiffer(a: real, b: real) {
    b != 0.0 && a * Quot(b, Abs(b)) < 0.0
  }

  function CheckTrial(b: Trial, tmin: real, tmax: real): int {
    if !b.brackt then 0
    else if b.t <= Min2(b.x, b.y) || Max2(b.x, b.y) <= b.t then LBFGSERR_OUTOFINTERVAL
    else if 0.0 <= b.dx * (b.t - b.x) then LBFGSERR_INCREASEGRADIENT
    else if tmax < tmin then LBFGSERR_INCORRECT_TMINMAX
    else 0
  }

  /** Which minimiser to try next: the four cases. */
  function Propose(b: Trial, tmin: real, tmax: real, sqrt: real -> real): Proposal {
    if b.fx < b.ft then
      var mc := CubicMinimizer(b.x, b.fx, b.dx, b.t, b.ft, b.dt, sqrt);
      var mq := QuadMinimizer(b.x, b.fx, b.dx, b.t, b.ft);
      Proposal(if Abs(mc - b.x) < Abs(mq - b.x) then mc else mc + 0.5 * (mq - mc), true, true)
    else if SignsDiffer(b.dt, b.dx) then
      var mc := CubicMinimizer(b.x, b.fx, b.dx, b.t, b.ft, b.dt, sqrt);
      var mq := QuadMinimizer2(b.x, b.dx, b.t, b.dt);
      Proposal(if Abs(mc - b.t) > Abs(mq - b.t) then mc else mq, true, false)
    else if Abs(b.dt) < Abs(b.dx) then
      var mc := CubicMinimizer2(b.x, b.fx, b.dx, b.t, b.ft, b.dt, tmin, tmax, sqrt);
      var mq := QuadMinimizer2(b.x, b.dx, b.t, b.dt);
      Proposal(if b.brackt
               then (if Abs(b.t - mc) < Abs(b.t - mq) then mc else mq)
               else (if Abs(b.t - mc) > Abs(b.t - mq) then mc else mq), b.brackt, true)
    else
      Proposal(if b.brackt then CubicMinimizer(b.t, b.ft, b.dt, b.y, b.fy, b.dy, sqrt)
               else if b.x < b.t then tmax else tmin, b.brackt, false)
  }

  /** The new ends of the interval; they do not depend on the proposal. */
  function Shrink(b: Trial): Trial {
    if b.fx < b.ft then b.(y := b.t, fy := b.ft, dy := b.dt)
    else if SignsDiffer(b.dt, b.dx) then
      b.(y := b.x, fy := b.fx, dy := b.dx, x := b.t, fx := b.ft, dx := b.dt)
    else b.(x := b.t, fx := b.ft, dx := b.dt)
  }

  function Safeguard(x: real, y: real, p: Proposal, tmin: real, tmax: real): real {
    var t1 := if tmax < p.newt then tmax else p.newt;
    var t2 := if t1 < tmin then tmin else t1;
    if p.brackt && p.bound then
      var mq := x + 0.66 * (y - x);
      if x < y then (if mq < t2 then mq else t2) else (if t2 < mq then mq else t2)
    else t2
  }

  /** Status and new state, as one function of the old state. */
  function UpdateTrial(b: Trial, tmin: real, tmax: real, sqrt: real -> real): (int, Trial) {
    var err := CheckTrial(b, tmin, tmax);
    if err != 0 then (err, b)
    else
      var p := Propose(b, tmin, tmax, sqrt);
      var s := Shrink(b);
      (0, s.(t := Safeguard(s.x, s.y, p, tmin, tmax), brackt := p.brackt))
  }

  /** The trial value selection, the first half of the C routine. */
  method SelectTrial(b: Trial, dsign: bool, tmin: real, tmax: real, sqrt: real -> real)
    returns (newt: real, brackt: bool, bound: bool)
    requires dsign == SignsDiffer(b.dt, b.dx)
    ensures Proposal(newt, brackt, bound) == Propose(b, tmin, tmax, sqrt)
  {
    hide CubicMinimizer, CubicMinimizer2, QuadMinimizer, QuadMinimizer2, SignsDiffer;
    var Trial(x, fx, dx, y, fy, dy, t, ft, dt, brackt0) := b;
    brackt := brackt0;
    if fx < ft {
      brackt := true;
      bound := true;
      var mc := CubicMinimizer(x, fx, dx, t, ft, dt, sqrt);
      var mq := QuadMinimizer(x, fx, dx, t, ft);
      if Abs(mc - x) < Abs(mq - x) { newt := mc; } else { newt := mc + 0.5 * (mq - mc); }
    } else if dsign {
      brackt := true;
      bound := false;
      var mc := CubicMinimizer(x, fx, dx, t, ft, dt, sqrt);
      var mq := QuadMinimizer2(x, dx, t, dt);
      if Abs(mc - t) > Abs(mq - t) { newt := mc; } else { newt := mq; }
    } else if Abs(dt) < Abs(dx) {
      bound := true;
      var mc := CubicMinimizer2(x, fx, dx, t, ft, dt, tmin, tmax, sqrt);
      var mq := QuadMinimizer2(x, dx, t, dt);
      if brackt {
        if Abs(t - mc) < Abs(t - mq) { newt := mc; } else { newt := mq; }
      } else {
        if Abs(t - mc) > Abs(t - mq) { newt := mc; } else { newt := mq; }
      }
    } else {
      bound := false;
      if brackt {
        newt := CubicMinimizer(t, ft, dt, y, fy, dy, sqrt);
      } else if x < t {
        newt := tmax;
      } else {
        newt := tmin;
      }
    }
  }

  /** The tests at the head of the C routine. */
  method CheckInterval(b: Trial, tmin: real, tmax: real) returns (ret: int)
    ensures ret == CheckTrial(b, tmin, tmax)
  {
    if b.brackt {
      if b.t <= Min2(b.x, b.y) || Max2(b.x, b.y) <= b.t { return LBFGSERR_OUTOFINTERVAL; }
      if 0.0 <= b.dx * (b.t - b.x) { return LBFGSERR_INCREASEGRADIENT; }
      if tmax < tmin { return LBFGSERR_INCORRECT_TMINMAX; }
    }
    return 0;
  }

  /** The C routine: every pointer argument it writes is an in-parameter and an out-parameter. */
  method UpdateTrialInterval(x0: real, fx0: real, dx0: real, y0: real, fy0: real, dy0: real,
                             t0: real, ft: real, dt: real, tmin: real, tmax: real, brackt0: bool,
                             sqrt: real -> real)
    returns (ret: int, x: real, fx: real, dx: real, y: real, fy: real, dy: real, t: real, brackt: bool)
    ensures (ret, Trial(x, fx, dx, y, fy, dy, t, ft, dt, brackt))
         == UpdateTrial(Trial(x0, fx0, dx0, y0, fy0, dy0, t0, ft, dt, brackt0), tmin, tmax, sqrt)
  {
    hide Propose, SignsDiffer, CheckTrial;
    x, fx, dx, y, fy, dy, t, brackt := x0, fx0, dx0, y0, fy0, dy0, t0, brackt0;
    var dsign := SignsDiffer(dt, dx);
    ret := CheckInterval(Trial(x, fx, dx, y, fy, dy, t, ft, dt, brackt), tmin, tmax);
    if ret != 0 { return; }
    var bound, newt;
    newt, brackt, bound := SelectTrial(Trial(x, fx, dx, y, fy, dy, t, ft, dt, brackt), dsign, tmin, tmax, sqrt);
    if fx < ft {
      y, fy, dy := t, ft, dt;
    } else {
      if dsign { y, fy, dy := x, fx, dx; }
      x, fx, dx := t, ft, dt;
    }
    if tmax < newt { newt := tmax; }
    if newt < tmin { newt := tmin; }
    if brackt && bound {
      var mq := x + 0.66 * (y - x);
      if x < y {
        if mq < newt { newt := mq; }
      } else {
        if newt < mq { newt := mq; }
      }
    }
    t := newt;
    ret := 0;
  }

  // ----- what a valid bracket is -----

  /** The trial lies strictly inside, downhill from the best point, and the other end is worse. */
  predicate Bracketed(b: Trial) {
    && b.brackt
    && Between(b.x, b.t, b.y)
    && b.dx * (b.t - b.x) < 0.0
    && (b.fx < b.fy || (b.fx <= b.fy && b.dy * b.dx < 0.0))
  }

  lemma NegativeProduct(a: real, d: real)
    ensures a * d < 0.0 <==> Agree(-a, d)
  {
    if Agree(-a, d) {
      if 0.0 < d { var p := MulPos(-a, d); } else { var p := MulPos(a, -d); }
    } else if a * d < 0.0 {
      if 0.0 <= d && 0.0 <= a { var p := MulNonNeg(a, d); }
      else if d <= 0.0 && a <= 0.0 { var p := MulNonNeg(-a, -d); }
    }
  }

  lemma SignsDifferMeaning(a: real, b: real)
    requires b != 0.0
    ensures SignsDiffer(a, b) <==> Agree(-a, b)
  {
    var s := Quot(b, Abs(b));
    if 0.0 < b { assert s == b / b == 1.0; } else { assert s == b / (-b) == -1.0; }
  }

  // ----- where each case puts the trial -----

  lemma ProposeHigher(b: Trial, tmin: real, tmax: real, sqrt: real -> real)
    requires IsSqrt(sqrt) && b.x != b.t && Agree(-b.dx, b.t - b.x) && b.fx < b.ft
    ensures Between(b.x, Propose(b, tmin, tmax, sqrt).newt, b.t)
  {
    CubicMinimizerInside(b.x, b.fx, b.dx, b.t, b.ft, b.dt, sqrt);
    QuadMinimizerInside(b.x, b.fx, b.dx, b.t, b.ft);
    hide CubicMinimizer, QuadMinimizer;
  }

  lemma ProposeOpposite(b: Trial, tmin: real, tmax: real, sqrt: real -> real)
    requires IsSqrt(sqrt) && b.x != b.t && Agree(-b.dx, b.t - b.x)
    requires !(b.fx < b.ft) && SignsDiffer(b.dt, b.dx)
    ensures Between(b.x, Propose(b, tmin, tmax, sqrt).newt, b.t)
  {
    SignsDifferMeaning(b.dt, b.dx);
    CubicMinimizerInside(b.x, b.fx, b.dx, b.t, b.ft, b.dt, sqrt);
    QuadMinimizer2Inside(b.x, b.dx, b.t, b.dt);
    hide CubicMinimizer, QuadMinimizer2;
  }

  /** Same sign, shrinking slope: strictly beyond t, or the far bound itself. */
  lemma ProposeShrinking(b: Trial, tmin: real, tmax: real, sqrt: real -> real)
    requires b.x != b.t && Agree(-b.dx, b.t - b.x) && Agree(-b.dt, b.t - b.x)
    requires !(b.fx < b.ft) && Abs(b.dt) < Abs(b.dx)
    ensures var n := Propose(b, tmin, tmax, sqrt).newt;
            Agree(n - b.t, b.t - b.x) || n == (if b.x < b.t then tmax else tmin)
  {
    SignsDifferMeaning(b.dt, b.dx);
    CubicMinimizer2Beyond(b.x, b.fx, b.dx, b.t, b.ft, b.dt, tmin, tmax, sqrt);
    QuadMinimizer2Beyond(b.x, b.dx, b.t, b.dt);
    hide CubicMinimizer2, QuadMinimizer2;
  }

  lemma ProposeGrowing(b: Trial, tmin: real, tmax: real, sqrt: real -> real)
    requires IsSqrt(sqrt) && b.brackt && Valley(b.t, b.ft, b.dt, b.y, b.fy, b.dy)
    requires !(b.fx < b.ft) && !SignsDiffer(b.dt, b.dx) && !(Abs(b.dt) < Abs(b.dx))
    ensures Between(b.t, Propose(b, tmin, tmax, sqrt).newt, b.y)
  {
    CubicMinimizerInside(b.t, b.ft, b.dt, b.y, b.fy, b.dy, sqrt);
    hide CubicMinimizer;
  }

  // ----- main results -----

  lemma CheckAccepts(b: Trial, tmin: real, tmax: real)
    requires Bracketed(b) && tmin <= tmax
    ensures CheckTrial(b, tmin, tmax) == 0
  {}

  /** The safeguards keep a proposal that is inside, or at the far end of a bounded step, inside. */
  lemma SafeguardInside(x: real, y: real, p: Proposal, tmin: real, tmax: real)
    requires x != y && tmin <= Min2(x, y) && Max2(x, y) <= tmax && p.brackt
    requires Between(x, p.newt, y)
          || (p.bound && (if x < y then x < p.newt && tmax == y else p.newt < x && tmin == y))
    ensures var t := Safeguard(x, y, p, tmin, tmax);
            Between(x, t, y) && (p.bound ==> Abs(t - x) <= 0.66 * Abs(y - x))
  {}


  /** From a valid bracket, every case proposes a point the safeguards can keep. */
  lemma PlaceInBracket(b: Trial, tmin: real, tmax: real, sqrt: real -> real)
    requires IsSqrt(sqrt) && Bracketed(b) && b.dt != 0.0
    requires tmin == Min2(b.x, b.y) && tmax == Max2(b.x, b.y)
    ensures var s, p := Shrink(b), Propose(b, tmin, tmax, sqrt);
      && s.x != s.y && p.brackt
      && tmin <= Min2(s.x, s.y) && Max2(s.x, s.y) <= tmax
      && (Between(s.x, p.newt, s.y)
          || (p.bound && (if s.x < s.y then s.x < p.newt && tmax == s.y else p.newt < s.x && tmin == s.y)))
      && (p.bound <==> b.fx < b.ft || (!SignsDiffer(b.dt, b.dx) && Abs(b.dt) < Abs(b.dx)))
  {
    NegativeProduct(b.dx, b.t - b.x);
    NegativeProduct(b.dy, b.dx);
    SignsDifferMeaning(b.dt, b.dx);
    if b.fx < b.ft {
      ProposeHigher(b, tmin, tmax, sqrt);
    } else if SignsDiffer(b.dt, b.dx) {
      ProposeOpposite(b, tmin, tmax, sqrt);
    } else if Abs(b.dt) < Abs(b.dx) {
      ProposeShrinking(b, tmin, tmax, sqrt);
    } else {
      ProposeGrowing(b, tmin, tmax, sqrt);
    }
    ProposeFlags(b, tmin, tmax, sqrt);
    hide Propose, SignsDiffer;
  }

  lemma ProposeFlags(b: Trial, tmin: real, tmax: real, sqrt: real -> real)
    ensures var p := Propose(b, tmin, tmax, sqrt);
      && (p.brackt <==> b.brackt || b.fx < b.ft || SignsDiffer(b.dt, b.dx))
      && (p.bound <==> b.fx < b.ft || (!SignsDiffer(b.dt, b.dx) && Abs(b.dt) < Abs(b.dx)))
  {
    hide CubicMinimizer, CubicMinimizer2, QuadMinimizer, QuadMinimizer2, SignsDiffer;
  }

  /** The best point keeps pointing downhill at any trial inside the new interval. */
  lemma ShrinkKeepsSigns(b: Trial, t: real)
    requires Bracketed(b) && b.dt != 0.0 && Between(Shrink(b).x, t, Shrink(b).y)
    ensures Bracketed(Shrink(b).(t := t, brackt := true))
  {
    var s := Shrink(b);
    NegativeProduct(b.dx, b.t - b.x);
    NegativeProduct(b.dy, b.dx);
    SignsDifferMeaning(b.dt, b.dx);
    NegativeProduct(s.dx, t - s.x);
    NegativeProduct(s.dy, s.dx);
    hide SignsDiffer;
  }

  /** One step from a valid bracket: no error, the new interval is nested in the old one with the
      tried point as an end, the best value is the lower of the two, the invariant holds again. */
  lemma UpdateKeepsBracket(b: Trial, tmin: real, tmax: real, sqrt: real -> real)
    requires IsSqrt(sqrt) && Bracketed(b) && b.dt != 0.0
    requires tmin == Min2(b.x, b.y) && tmax == Max2(b.x, b.y)
    ensures var (ret, n) := UpdateTrial(b, tmin, tmax, sqrt);
      && ret == 0
      && Bracketed(n)
      && n.fx == Min2(b.fx, b.ft)
      && ((n.x == b.x && n.y == b.t) || (n.x == b.t && n.y == b.x) || (n.x == b.t && n.y == b.y))
      && tmin <= Min2(n.x, n.y) && Max2(n.x, n.y) <= tmax
      && (b.fx < b.ft || (!SignsDiffer(b.dt, b.dx) && Abs(b.dt) < Abs(b.dx)) ==>
            Abs(n.t - n.x) <= 0.66 * Abs(n.y - n.x))
  {
    CheckAccepts(b, tmin, tmax);
    var s, p := Shrink(b), Propose(b, tmin, tmax, sqrt);
    PlaceInBracket(b, tmin, tmax, sqrt);
    hide Propose, CheckTrial;
    SafeguardInside(s.x, s.y, p, tmin, tmax);
    var n := UpdateTrial(b, tmin, tmax, sqrt).1;
    assert n == s.(t := Safeguard(s.x, s.y, p, tmin, tmax), brackt := p.brackt);
    hide Safeguard;
    ShrinkKeepsSigns(b, n.t);
  }

  /** One step before anything is bracketed: either the pair (x, t) becomes a valid bracket, or the
      best point moves on to t, still downhill, and the next trial lies further on, up to tmax. */
  lemma UpdateExtends(b: Trial, tmin: real, tmax: real, sqrt: real -> real)
    requires IsSqrt(sqrt) && !b.brackt && b.x < b.t && b.dx < 0.0 && b.dt != 0.0
    requires tmin == b.x && b.t < tmax
    ensures var (ret, n) := UpdateTrial(b, tmin, tmax, sqrt);
      && ret == 0
      && n.fx == Min2(b.fx, b.ft)
      && (if b.fx < b.ft || 0.0 < b.dt
          then Bracketed(n) && ((n.x == b.x && n.y == b.t) || (n.x == b.t && n.y == b.x))
          else !n.brackt && n.x == b.t < n.t <= tmax && n.dx < 0.0)
  {
    SignsDifferMeaning(b.dt, b.dx);
    var s, p := Shrink(b), Propose(b, tmin, tmax, sqrt);
    if b.fx < b.ft {
      ProposeHigher(b, tmin, tmax, sqrt);
    } else if SignsDiffer(b.dt, b.dx) {
      ProposeOpposite(b, tmin, tmax, sqrt);
    } else if Abs(b.dt) < Abs(b.dx) {
      ProposeShrinking(b, tmin, tmax, sqrt);
    } else {
      ProposeTooFar(b, tmin, tmax, sqrt);
    }
    ProposeFlags(b, tmin, tmax, sqrt);
    hide Propose, SignsDiffer;
    var n := UpdateTrial(b, tmin, tmax, sqrt).1;
    assert n == s.(t := Safeguard(s.x, s.y, p, tmin, tmax), brackt := p.brackt);
    NegativeProduct(n.dx, n.t - n.x);
    NegativeProduct(n.dy, n.dx);
  }

  lemma ProposeTooFar(b: Trial, tmin: real, tmax: real, sqrt: real -> real)
    requires !b.brackt && b.x < b.t && !(b.fx < b.ft)
    requires !SignsDiffer(b.dt, b.dx) && !(Abs(b.dt) < Abs(b.dx))
    ensures Propose(b, tmin, tmax, sqrt).newt == tmax
  {
    hide CubicMinimizer, SignsDiffer;
  }

  /** Which of the two minimisers the proposal favours, measured as a distance: it never lies
      further from x than the cubic one after a higher value; it is the one further from t after a
      sign change; with a shrinking slope it is the one closer to t inside a bracket and the one
      further from t outside. */
  lemma ProposalDistance(b: Trial, tmin: real, tmax: real, sqrt: real -> real)
    ensures var n := Propose(b, tmin, tmax, sqrt).newt;
      var mc := CubicMinimizer(b.x, b.fx, b.dx, b.t, b.ft, b.dt, sqrt);
      var mc2 := CubicMinimizer2(b.x, b.fx, b.dx, b.t, b.ft, b.dt, tmin, tmax, sqrt);
      var mq2 := QuadMinimizer2(b.x, b.dx, b.t, b.dt);
      if b.fx < b.ft then Abs(n - b.x) <= Abs(mc - b.x)
      else if SignsDiffer(b.dt, b.dx) then Abs(n - b.t) == Max2(Abs(mc - b.t), Abs(mq2 - b.t))
      else if Abs(b.dt) < Abs(b.dx) then
        Abs(n - b.t) == (if b.brackt then Min2(Abs(mc2 - b.t), Abs(mq2 - b.t))
                         else Max2(Abs(mc2 - b.t), Abs(mq2 - b.t)))
      else true
  {
    hide CubicMinimizer, CubicMinimizer2, QuadMinimizer, QuadMinimizer2, SignsDiffer;
  }

  // ----- which trial comes next -----

  /** The safeguards pick, among the points they allow, the one nearest to the proposal: so a proposal that
      is allowed stays as it is. */
  lemma SafeguardNearest(x: real, y: real, p: Proposal, tmin: real, tmax: real, z: real)
    requires tmin <= z <= tmax
    requires p.brackt && p.bound ==> if x < y then z <= x + 0.66 * (y - x) else x + 0.66 * (y - x) <= z
    ensures var n := Safeguard(x, y, p, tmin, tmax);
      && tmin <= n <= tmax
      && (p.brackt && p.bound ==> if x < y then n <= x + 0.66 * (y - x) else x + 0.66 * (y - x) <= n)
      && Abs(n - p.newt) <= Abs(z - p.newt)
  {}

  /** The status: zero unless a bracket does not hold the trial strictly, its best point does not point
      downhill to it, or the bounds are crossed; then nothing changes. */
  lemma StatusExact(b: Trial, tmin: real, tmax: real, sqrt: real -> real)
    ensures var (u, n) := UpdateTrial(b, tmin, tmax, sqrt);
      && (u == LBFGSERR_OUTOFINTERVAL <==> b.brackt && !Between(b.x, b.t, b.y))
      && (u == LBFGSERR_INCREASEGRADIENT <==> b.brackt && Between(b.x, b.t, b.y) && 0.0 <= b.dx * (b.t - b.x))
      && (u == LBFGSERR_INCORRECT_TMINMAX <==>
          b.brackt && Between(b.x, b.t, b.y) && b.dx * (b.t - b.x) < 0.0 && tmax < tmin)
      && (u == 0 <==> (b.brackt ==> Between(b.x, b.t, b.y) && b.dx * (b.t - b.x) < 0.0 && tmin <= tmax))
      && (u != 0 ==> n == b)
  {
    hide Propose, Safeguard, Shrink;
    var slope := b.dx * (b.t - b.x);
    assert CheckTrial(b, tmin, tmax) == if !b.brackt then 0
                                        else if !Between(b.x, b.t, b.y) then LBFGSERR_OUTOFINTERVAL
                                        else if 0.0 <= slope then LBFGSERR_INCREASEGRADIENT
                                        else if tmax < tmin then LBFGSERR_INCORRECT_TMINMAX
                                        else 0;
  }

  /** Case 1, a higher value: the tried point becomes the other end. Next comes the cubic minimiser if it is
      closer to the best point than the quadratic one, otherwise the point half way between the two, but
      nothing beyond 0.66 of the interval. */
  lemma HigherTrial(b: Trial, tmin: real, tmax: real, sqrt: real -> real)
    requires IsSqrt(sqrt) && b.x != b.t && Agree(-b.dx, b.t - b.x) && b.fx < b.ft
    requires tmin <= Min2(b.x, b.t) && Max2(b.x, b.t) <= tmax && UpdateTrial(b, tmin, tmax, sqrt).0 == 0
    ensures var n := UpdateTrial(b, tmin, tmax, sqrt).1;
      var mc := CubicMinimizer(b.x, b.fx, b.dx, b.t, b.ft, b.dt, sqrt);
      var mq := QuadMinimizer(b.x, b.fx, b.dx, b.t, b.ft);
      var aim := if Abs(mc - b.x) < Abs(mq - b.x) then mc else (mc + mq) / 2.0;
      && n == b.(y := b.t, fy := b.ft, dy := b.dt, brackt := true, t := n.t)
      && Between(b.x, mc, b.t) && Between(b.x, mq, b.t)
      && n.t == if Abs(aim - b.x) <= 0.66 * Abs(b.t - b.x) then aim else b.x + 0.66 * (b.t - b.x)
  {
    CubicMinimizerInside(b.x, b.fx, b.dx, b.t, b.ft, b.dt, sqrt);
    QuadMinimizerInside(b.x, b.fx, b.dx, b.t, b.ft);
    hide CubicMinimizer, QuadMinimizer, CheckTrial;
  }

  /** Case 2, no higher and the slope has turned: the tried point becomes the best, the old best the other
      end. Next comes whichever of cubic minimiser and secant zero is further from the tried point. */
  lemma OppositeTrial(b: Trial, tmin: real, tmax: real, sqrt: real -> real)
    requires IsSqrt(sqrt) && b.x != b.t && Agree(-b.dx, b.t - b.x) && b.ft <= b.fx && Agree(b.dt, b.t - b.x)
    requires tmin <= Min2(b.x, b.t) && Max2(b.x, b.t) <= tmax && UpdateTrial(b, tmin, tmax, sqrt).0 == 0
    ensures var n := UpdateTrial(b, tmin, tmax, sqrt).1;
      var mc := CubicMinimizer(b.x, b.fx, b.dx, b.t, b.ft, b.dt, sqrt);
      var mq := QuadMinimizer2(b.x, b.dx, b.t, b.dt);
      && n == Trial(b.t, b.ft, b.dt, b.x, b.fx, b.dx, n.t, b.ft, b.dt, true)
      && Between(b.x, mc, b.t) && Between(b.x, mq, b.t)
      && n.t == if Abs(mq - b.t) < Abs(mc - b.t) then mc else mq
  {
    SignsDifferMeaning(b.dt, b.dx);
    CubicMinimizerInside(b.x, b.fx, b.dx, b.t, b.ft, b.dt, sqrt);
    QuadMinimizer2Inside(b.x, b.dx, b.t, b.dt);
    hide CubicMinimizer, QuadMinimizer2, CheckTrial, SignsDiffer;
  }

  /** Case 3, no higher and a slope that shrinks: the tried point becomes the best. Outside a bracket the
      further of second cubic minimiser and secant zero comes next, up to the far bound; inside one the
      nearer, up to the far bound and to 0.66 of what is left. */
  lemma ShrinkingTrial(b: Trial, tmin: real, tmax: real, sqrt: real -> real)
    requires Agree(-b.dx, b.t - b.x) && Agree(-b.dt, b.t - b.x) && Abs(b.dt) < Abs(b.dx) && b.ft <= b.fx
    requires if b.x < b.t then tmin <= b.t < tmax else tmin < b.t <= tmax
    requires (b.brackt ==> Between(b.x, b.t, b.y)) && UpdateTrial(b, tmin, tmax, sqrt).0 == 0
    ensures var n := UpdateTrial(b, tmin, tmax, sqrt).1;
      var mc := CubicMinimizer2(b.x, b.fx, b.dx, b.t, b.ft, b.dt, tmin, tmax, sqrt);
      var mq := QuadMinimizer2(b.x, b.dx, b.t, b.dt);
      var cut := b.t + 0.66 * (b.y - b.t);
      && n == b.(x := b.t, fx := b.ft, dx := b.dt, t := n.t)
      && (if b.x < b.t
          then b.t < mc && b.t < mq
               && n.t == (if b.brackt then Min2(Min2(mc, mq), Min2(tmax, cut)) else Min2(Max2(mc, mq), tmax))
          else mc < b.t && mq < b.t
               && n.t == (if b.brackt then Max2(Max2(mc, mq), Max2(tmin, cut)) else Max2(Min2(mc, mq), tmin)))
  {
    SignsDifferMeaning(b.dt, b.dx);
    CubicMinimizer2Beyond(b.x, b.fx, b.dx, b.t, b.ft, b.dt, tmin, tmax, sqrt);
    QuadMinimizer2Beyond(b.x, b.dx, b.t, b.dt);
    hide CubicMinimizer2, QuadMinimizer2, CheckTrial, SignsDiffer;
  }

  /** Case 4, no higher and a slope that does not shrink: the tried point becomes the best. Outside a bracket
      the far bound comes next; inside one the minimiser of the cubic to the other end, if that turns up
      inside. */
  lemma GrowingTrial(b: Trial, tmin: real, tmax: real, sqrt: real -> real)
    requires Agree(-b.dx, b.t - b.x) && Agree(-b.dt, b.t - b.x) && Abs(b.dx) <= Abs(b.dt) && b.ft <= b.fx
    requires tmin <= b.t <= tmax && (b.brackt ==> Between(b.x, b.t, b.y) && tmin <= b.y <= tmax)
    requires UpdateTrial(b, tmin, tmax, sqrt).0 == 0
    ensures var n := UpdateTrial(b, tmin, tmax, sqrt).1;
      var mc := CubicMinimizer(b.t, b.ft, b.dt, b.y, b.fy, b.dy, sqrt);
      && n == b.(x := b.t, fx := b.ft, dx := b.dt, t := n.t)
      && (!b.brackt ==> n.t == if b.x < b.t then tmax else tmin)
      && (b.brackt && Between(b.t, mc, b.y) ==> n.t == mc)
  {
    SignsDifferMeaning(b.dt, b.dx);
    hide CubicMinimizer, CheckTrial, SignsDiffer;
  }

  /** The clause of Bracketed about the other end is needed: here the trial is inside and downhill,
      but the far end is lower, and the fourth case takes the root of a negative number. */
  lemma HigherEndNeeded()
    ensures var b := Trial(0.0, 0.0, -1.0, 2.0, -1.3, -0.05, 1.0, -1.0, -1.0, true);
      && Between(b.x, b.t, b.y) && b.dx * (b.t - b.x) < 0.0 && b.fy < b.ft
      && CheckTrial(b, 0.0, 2.0) == 0
      && !(b.fx < b.ft) && !SignsDiffer(b.dt, b.dx) && !(Abs(b.dt) < Abs(b.dx))
      && (var theta := Theta(b.t, b.ft, b.dt, b.y, b.fy, b.dy);
          ScaledDisc(theta, b.dt, b.dy, Magnitude(theta, b.dt, b.dy)) < 0.0)
  {
    SignsDifferMeaning(-1.0, -1.0);
    var theta := Theta(1.0, -1.0, -1.0, 2.0, -1.3, -0.05);
    assert theta == -0.15;
    assert Magnitude(theta, -1.0, -0.05) == 1.0;
    assert ScaledDisc(theta, -1.0, -0.05, 1.0) == theta * theta - 0.05;
  }
}
