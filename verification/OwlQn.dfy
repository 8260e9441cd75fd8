/** The orthant-wise parts of src/lbfgs.c: L1 norm, pseudo-gradient, projection and line search. */
module OwlQn {
  import opened Interpolation
  import opened LbfgsCodes
  import opened Vectors
  import opened Kernels
  import opened Objectives

  // ----- the regularised objective f(x) + c |x[start..end]|_1 -----

  function L1(x: Vec): real {
    if |x| == 0 then 0.0 else L1(x[..|x|-1]) + Abs(x[|x|-1])
  }

  /** The regularised range; it is empty when start is not below end. */
  function Range(x: Vec, start: nat, end: nat): Vec
    requires start <= |x| && end <= |x|
  {
    if start <= end then x[start..end] else []
  }

  /** L1 adds up magnitudes: zero on the zero vector, and a coordinate counts with its distance from zero. */
  lemma {:induction false} L1Coordinate(x: Vec, i: nat, v: real)
    requires i < |x|
    ensures L1(Zero(|x|)) == 0.0
    ensures L1(x[i := v]) - L1(x) == Max2(v, -v) - Max2(x[i], -x[i])
  {
    L1Zero(|x|);
    var n := |x| - 1;
    assert x[i := v][..n] == if i < n then x[..n][i := v] else x[..n];
    if i < n { L1Coordinate(x[..n], i, v); }
  }

  lemma {:induction false} L1Zero(n: nat)
    ensures L1(Zero(n)) == 0.0
  {
    if n > 0 {
      assert Zero(n)[..n-1] == Zero(n-1);
      L1Zero(n - 1);
    }
  }

  method X1Norm(x: Vec, start: nat, end: nat) returns (norm: real)
    requires start <= |x| && end <= |x|
    ensures norm == L1(Range(x, start, end))
  {
    norm := 0.0;
    var i := start;
    assert x[start..start] == [];
    while i < end
      invariant start <= i && (i <= end || i == start)
      invariant norm == L1(x[start..i])
    {
      assert x[start..i+1][..i - start] == x[start..i];
      norm := norm + Abs(x[i]);
      i := i + 1;
    }
  }

  ghost function Regularised(obj: Objective, c: real, start: nat, end: nat, x: Vec): real
    requires start <= |x| && end <= |x|
  {
    obj.f(x) + Mul(L1(Range(x, start, end)), c)
  }

  /** What a coordinate adds to the regularised value: c times its distance from zero inside the range, and
      nothing outside. */
  lemma RegularisedCoordinate(obj: Objective, c: real, start: nat, end: nat, x: Vec, i: nat, v: real)
    requires start <= |x| && end <= |x| && i < |x|
    ensures Regularised(obj, c, start, end, Zero(|x|)) == obj.f(Zero(|x|))
    ensures var y := x[i := v];
      Regularised(obj, c, start, end, y) - obj.f(y) - (Regularised(obj, c, start, end, x) - obj.f(x))
      == if start <= i < end then (Max2(v, -v) - Max2(x[i], -x[i])) * c else 0.0
  {
    hide L1, Range, Mul;
    var r := Range(x, start, end);
    RangeCoordinate(x, start, end, i, v);
    L1Zero(|r|);
    MulFacts(0.0, 0.0, c);
    assert Mul(0.0, c) == 0.0;
    if start <= i < end {
      L1Coordinate(r, i - start, v);
      WeightedChange(L1(r[i - start := v]), L1(r), Max2(v, -v) - Max2(x[i], -x[i]), c);
    }
  }

  lemma RangeCoordinate(x: Vec, start: nat, end: nat, i: nat, v: real)
    requires start <= |x| && end <= |x| && i < |x|
    ensures var r := Range(x, start, end);
      && Range(Zero(|x|), start, end) == Zero(|r|)
      && (start <= i < end ==>
            i - start < |r| && r[i - start] == x[i] && Range(x[i := v], start, end) == r[i - start := v])
      && (!(start <= i < end) ==> Range(x[i := v], start, end) == r)
  {}

  lemma WeightedChange(a: real, b: real, d: real, c: real)
    requires a - b == d
    ensures Mul(a, c) - Mul(b, c) == d * c
  {}

  // ----- the pseudo-gradient -----

  function PseudoSlope(x: real, g: real, c: real): real {
    if x < 0.0 then g - c
    else if 0.0 < x then g + c
    else if g < -c then g + c
    else if c < g then g - c
    else 0.0
  }

  /** v is a subgradient of f + c |.| in one coordinate, where f has slope g at x. */
  predicate Subgradient(v: real, x: real, g: real, c: real) {
    if x < 0.0 then v == g - c
    else if 0.0 < x then v == g + c
    else g - c <= v <= g + c
  }

  /** The pseudo-gradient is the subgradient of least magnitude, and the only one. */
  lemma PseudoSlopeLeast(x: real, g: real, c: real, v: real)
    requires 0.0 <= c
    ensures Subgradient(PseudoSlope(x, g, c), x, g, c)
    ensures Subgradient(v, x, g, c) ==> Abs(PseudoSlope(x, g, c)) <= Abs(v)
    ensures Subgradient(v, x, g, c) && Abs(v) <= Abs(PseudoSlope(x, g, c)) ==> v == PseudoSlope(x, g, c)
  {}

  ghost function PseudoGradient(x: Vec, g: Vec, c: real, start: nat, end: nat): (r: Vec)
    requires |x| == |g| && start <= |x| && end <= |x|
    ensures |r| == |x|
  {
    seq(|x|, i requires 0 <= i < |x| => if start <= i < end then PseudoSlope(x[i], g[i], c) else g[i])
  }

  method ComputePseudoGradient(pg: array<real>, x: Vec, g: Vec, c: real, start: nat, end: nat)
    requires pg.Length == |x| == |g| && start <= |x| && end <= |x|
    modifies pg
    ensures pg[..] == PseudoGradient(x, g, c, start, end)
  {
    var i := 0;
    while i < start
      invariant 0 <= i <= start
      invariant forall k :: 0 <= k < i ==> pg[k] == g[k]
    {
      pg[i] := g[i];
      i := i + 1;
    }
    while i < end
      invariant start <= i && (i <= end || i == start)
      invariant forall k :: 0 <= k < start ==> pg[k] == g[k]
      invariant forall k :: start <= k < i ==> pg[k] == PseudoSlope(x[k], g[k], c)
    {
      if x[i] < 0.0 {
        pg[i] := g[i] - c;
      } else if 0.0 < x[i] {
        pg[i] := g[i] + c;
      } else {
        if g[i] < -c {
          pg[i] := g[i] + c;
        } else if c < g[i] {
          pg[i] := g[i] - c;
        } else {
          pg[i] := 0.0;
        }
      }
      i := i + 1;
    }
    i := end;
    while i < |x|
      invariant end <= i <= |x|
      invariant forall k :: 0 <= k < start || end <= k < i ==> pg[k] == g[k]
      invariant forall k :: start <= k < end ==> pg[k] == PseudoSlope(x[k], g[k], c)
    {
      pg[i] := g[i];
      i := i + 1;
    }
  }

  // ----- the orthant -----

  /** The orthant of the search: the sign of the point, or of the descent direction where it is zero. */
  function OrthantSign(xp: real, pg: real): real {
    if xp == 0.0 then -pg else xp
  }

  function ProjectOne(d: real, sign: real): real {
    if Mul(d, sign) <= 0.0 then 0.0 else d
  }

  method Project(d: array<real>, sign: Vec, start: nat, end: nat)
    requires d.Length == |sign| && start <= |sign| && end <= |sign|
    modifies d
    ensures forall i :: 0 <= i < d.Length ==>
              d[i] == if start <= i < end then ProjectOne(old(d[i]), sign[i]) else old(d[i])
  {
    hide Mul;
    var i := start;
    while i < end
      invariant start <= i && (i <= end || i == start)
      invariant forall k :: 0 <= k < d.Length ==>
                  d[k] == if start <= k < i then ProjectOne(old(d[k]), sign[k]) else old(d[k])
    {
      if Mul(d[i], sign[i]) <= 0.0 { d[i] := 0.0; }
      i := i + 1;
    }
  }

  /** Every regularised coordinate of the direction is zero or runs against the pseudo-gradient. */
  ghost predicate Constrained(d: Vec, pg: Vec, start: nat, end: nat)
    requires |d| == |pg| && start <= |d| && end <= |d|
  {
    forall i :: start <= i < end ==> d[i] == 0.0 || Agree(-d[i], pg[i])
  }

  lemma SameSideProduct(z: real, w: real)
    ensures 0.0 < Mul(z, w) <==> (0.0 < z && 0.0 < w) || (z < 0.0 && w < 0.0)
  {
    if 0.0 < z && 0.0 < w { var p := MulPos(z, w); }
    if z < 0.0 && w < 0.0 { var p := MulPos(-z, -w); }
    if 0.0 <= z && w <= 0.0 { var p := MulNonNeg(z, -w); }
    if z <= 0.0 && 0.0 <= w { var p := MulNonNeg(-z, w); }
  }

  /** The direction without the components that do not run against the pseudo-gradient. */
  function Restrict(d: Vec, pg: Vec, start: nat, end: nat): (r: Vec)
    requires |d| == |pg| && start <= |d| && end <= |d|
    ensures |r| == |d|
  {
    seq(|d|, i requires 0 <= i < |d| => if start <= i < end && Mul(d[i], pg[i]) >= 0.0 then 0.0 else d[i])
  }

  /** What is left of it: the components outside the range, and those of opposite sign to the pseudo-gradient. */
  lemma RestrictExact(d: Vec, pg: Vec, start: nat, end: nat)
    requires |d| == |pg| && start <= |d| && end <= |d|
    ensures Constrained(Restrict(d, pg, start, end), pg, start, end)
    ensures forall i :: 0 <= i < |d| ==>
              Restrict(d, pg, start, end)[i]
              == if start <= i < end && !((0.0 < d[i] && pg[i] < 0.0) || (d[i] < 0.0 && 0.0 < pg[i])) then 0.0 else d[i]
  {
    forall i | 0 <= i < |d|
      ensures Mul(d[i], pg[i]) >= 0.0 <==> !((0.0 < d[i] && pg[i] < 0.0) || (d[i] < 0.0 && 0.0 < pg[i]))
    {
      SameSideProduct(-d[i], pg[i]);
      assert Mul(-d[i], pg[i]) == -Mul(d[i], pg[i]);
    }
    hide Mul;
  }

  /** Steepest descent needs no restriction. */
  lemma SteepestConstrained(pg: Vec, start: nat, end: nat)
    requires start <= |pg| && end <= |pg|
    ensures Restrict(Neg(pg), pg, start, end) == Neg(pg)
  {
    RestrictExact(Neg(pg), pg, start, end);
    hide Restrict;
  }

  /** The direction after the orthant constraint: nothing that climbs along the pseudo-gradient. */
  method ConstrainDirection(d: array<real>, pg: Vec, start: nat, end: nat)
    requires d.Length == |pg| && start <= |pg| && end <= |pg|
    modifies d
    ensures d[..] == Restrict(old(d[..]), pg, start, end)
  {
    hide Mul;
    var i := start;
    while i < end
      invariant start <= i && (i <= end || i == start)
      invariant forall k :: 0 <= k < d.Length ==>
                  d[k] == if start <= k < i && Mul(old(d[k]), pg[k]) >= 0.0 then 0.0 else old(d[k])
    {
      if Mul(d[i], pg[i]) >= 0.0 { d[i] := 0.0; }
      i := i + 1;
    }
  }

  /** The trial point of step t. */
  ghost function Trial(xp: Vec, s: Vec, pg: Vec, start: nat, end: nat, t: real): (r: Vec)
    requires |xp| == |s| == |pg| && start <= |xp| && end <= |xp|
    ensures |r| == |xp|
  {
    seq(|xp|, i requires 0 <= i < |xp| =>
      var z := xp[i] + Mul(t, s[i]);
      if start <= i < end then ProjectOne(z, OrthantSign(xp[i], pg[i])) else z)
  }

  lemma TrialCoordinate(xp: real, s: real, pg: real, t: real) returns (x: real)
    requires 0.0 < t
    ensures x == ProjectOne(xp + Mul(t, s), OrthantSign(xp, pg))
    ensures 0.0 <= Mul(x, OrthantSign(xp, pg))
    ensures (s == 0.0 || Agree(-s, pg)) ==> Mul(x - xp, pg) <= 0.0
  {
    var z, w := xp + Mul(t, s), OrthantSign(xp, pg);
    x := ProjectOne(z, w);
    assert Mul(0.0, w) == 0.0;
    if s == 0.0 {
      SquareZero(xp);
      assert x == xp;
    } else if Agree(-s, pg) {
      var a := if 0.0 < s then s else -s;
      var step := MulPos(t, a);
      hide Mul;
      assert Mul(t, s) == if 0.0 < s then step else -step by { MulFacts(t, s, 0.0); }
      if xp == 0.0 {
        OppositeMoves(x, pg);
      } else {
        ProjectMoves(xp, Mul(t, s), x);
        OppositeMoves(x - xp, pg);
      }
    }
  }

  /** A projected move never goes the other way. */
  lemma ProjectMoves(xp: real, step: real, x: real)
    requires xp != 0.0 && x == ProjectOne(xp + step, xp)
    ensures !Agree(x - xp, -step)
  {
    if 0.0 < xp {
      if 0.0 < xp + step { var p := MulPos(xp + step, xp); }
    } else {
      if xp + step < 0.0 { var p := MulPos(-(xp + step), -xp); }
    }
  }

  lemma OppositeMoves(m: real, pg: real)
    requires !Agree(m, pg)
    ensures Mul(m, pg) <= 0.0
  {
    if 0.0 <= m && pg <= 0.0 { var p := MulNonNeg(m, -pg); }
    else if m <= 0.0 && 0.0 <= pg { var p := MulNonNeg(-m, pg); }
  }

  lemma {:induction false} DotNonPositive(a: Vec, b: Vec)
    requires |a| == |b| && forall i :: 0 <= i < |a| ==> Mul(a[i], b[i]) <= 0.0
    ensures Dot(a, b) <= 0.0
  {
    hide Mul;
    var n := |a|;
    if n > 0 {
      DotNonPositive(a[..n-1], b[..n-1]);
    }
  }

  /** Each coordinate of a trial point: the full step outside the regularised range, and inside it the full step
      unless that reaches or crosses zero, or leaves zero in another direction than against the
      pseudo-gradient. */
  lemma TrialExact(xp: Vec, s: Vec, pg: Vec, start: nat, end: nat, t: real, i: nat)
    requires |xp| == |s| == |pg| && start <= |xp| && end <= |xp| && i < |xp|
    ensures var z, x := xp[i] + Mul(t, s[i]), Trial(xp, s, pg, start, end, t)[i];
      && (!(start <= i < end) ==> x == z)
      && (start <= i < end && xp[i] != 0.0 ==>
            x == if (0.0 < xp[i] && 0.0 < z) || (xp[i] < 0.0 && z < 0.0) then z else 0.0)
      && (start <= i < end && xp[i] == 0.0 ==>
            x == if (pg[i] < 0.0 && 0.0 < z) || (0.0 < pg[i] && z < 0.0) then z else 0.0)
  {
    var z, w := xp[i] + Mul(t, s[i]), OrthantSign(xp[i], pg[i]);
    SameSideProduct(z, w);
    hide Mul;
  }

  /** Every projected trial stays in the chosen orthant. */
  lemma TrialInOrthant(xp: Vec, s: Vec, pg: Vec, start: nat, end: nat, t: real, i: nat)
    requires |xp| == |s| == |pg| && start <= |xp| && end <= |xp| && 0.0 < t && start <= i < end
    ensures 0.0 <= Mul(Trial(xp, s, pg, start, end, t)[i], OrthantSign(xp[i], pg[i]))
  {
    var x := TrialCoordinate(xp[i], s[i], pg[i], t);
  }

  /** With a constrained direction that moves regularised coordinates only, no trial climbs along the
      pseudo-gradient. */
  lemma TrialDescends(xp: Vec, s: Vec, pg: Vec, end: nat, t: real)
    requires |xp| == |s| == |pg| && end <= |s| && 0.0 < t
    requires Constrained(s, pg, 0, end) && forall i :: end <= i < |s| ==> s[i] == 0.0
    ensures Dot(Sub(Trial(xp, s, pg, 0, end, t), xp), pg) <= 0.0
  {
    var m := Sub(Trial(xp, s, pg, 0, end, t), xp);
    forall i | end <= i < |m|
      ensures Mul(m[i], pg[i]) == 0.0
    {}
    hide Mul, ProjectOne, OrthantSign;
    forall i | 0 <= i < |m|
      ensures Mul(m[i], pg[i]) <= 0.0
    {
      if i < end {
        var x := TrialCoordinate(xp[i], s[i], pg[i], t);
        assert m[i] == x - xp[i];
      }
    }
    DotNonPositive(m, pg);
  }

  // ----- the line search -----

  ghost predicate OwlqnAccepts(obj: Objective, xp: Vec, s: Vec, pg: Vec, f0: real, p: Params, start: nat, end: nat,
                               t: real)
    requires |xp| == |s| == |pg| && start <= |xp| && end <= |xp|
  {
    var x := Trial(xp, s, pg, start, end, t);
    Regularised(obj, p.orthantwiseC, start, end, x) <= f0 + Mul(p.ftol, Dot(Sub(x, xp), pg))
  }

  ghost function Halved(t0: real, k: nat): real {
    if k == 0 then t0 else Halved(t0, k - 1) * 0.5
  }

  lemma {:induction false} HalvedClosedForm(t0: real, k: nat)
    ensures Halved(t0, k) == Mul(t0, Pow(0.5, k))
  {
    if k > 0 { HalvedClosedForm(t0, k - 1); }
  }

  /** The directional derivative along the projected move, one term a turn. */
  method ProjectedSlope(x: Vec, xp: Vec, gp: Vec) returns (dgtest: real)
    requires |x| == |xp| == |gp|
    ensures dgtest == Dot(Sub(x, xp), gp)
  {
    hide Mul;
    dgtest := 0.0;
    var i := 0;
    while i < |x|
      invariant 0 <= i <= |x|
      invariant dgtest == Dot(Sub(x, xp)[..i], gp[..i])
    {
      DotStep(Sub(x, xp), gp, i);
      dgtest := dgtest + Mul(x[i] - xp[i], gp[i]);
      i := i + 1;
    }
    assert Sub(x, xp)[..|x|] == Sub(x, xp) && gp[..|x|] == gp;
  }

  /** Choose the orthant, then halve the step until the projected point decreases enough. */
  method LineSearchBacktrackingOwlqn(x: array<real>, f0: real, g: array<real>, s: Vec, stp0: real, xp: Vec,
                                     gp: Vec, wp: array<real>, obj: Objective, p: Params, start: nat, end: nat)
    returns (ret: int, f: real, stp: real, evals: nat)
    requires x != g && x != wp && g != wp && x.Length == g.Length == wp.Length == |s| == |xp| == |gp|
    requires IsObjective(obj, |s|) && start <= |s| && end <= |s|
    modifies x, g, wp
    ensures ret == LBFGSERR_INVALIDPARAMETERS <==> stp0 <= 0.0
    ensures ret != LBFGSERR_INCREASEGRADIENT
    ensures evals == 0 || evals == 1 || evals <= p.maxLinesearch
    ensures if evals == 0 then
        f == f0 && stp == stp0 && x[..] == old(x[..]) && g[..] == old(g[..]) && ret == LBFGSERR_INVALIDPARAMETERS
      else
        && stp == Halved(stp0, evals - 1) && 0.0 < stp
        && x[..] == Trial(xp, s, gp, start, end, stp) && g[..] == obj.grad(x[..])
        && f == Regularised(obj, p.orthantwiseC, start, end, x[..])
        && (0 <= ret <==> f <= f0 + Mul(p.ftol, Dot(Sub(x[..], xp), gp)))
        && (forall i :: 0 <= i < evals - 1 ==>
              var t := Halved(stp0, i);
              !OwlqnAccepts(obj, xp, s, gp, f0, p, start, end, t) && p.minStep <= t <= p.maxStep)
        && (ret == LBFGSERR_MAXIMUMLINESEARCH ==> p.maxLinesearch <= evals)
        && (if OwlqnAccepts(obj, xp, s, gp, f0, p, start, end, stp) then ret == evals
            else ret == if stp < p.minStep then LBFGSERR_MINIMUMSTEP
                        else if stp > p.maxStep then LBFGSERR_MAXIMUMSTEP
                        else LBFGSERR_MAXIMUMLINESEARCH)
  {
    hide Mul, Dot, L1, Range;
    var count := 0;
    f, stp, evals := f0, stp0, 0;
    var finit := f;
    if stp <= 0.0 { return LBFGSERR_INVALIDPARAMETERS, f, stp, 0; }
    var i := 0;
    while i < |s|
      invariant 0 <= i <= |s|
      invariant forall k :: 0 <= k < i ==> wp[k] == OrthantSign(xp[k], gp[k])
    {
      wp[i] := if xp[i] == 0.0 then -gp[i] else xp[i];
      i := i + 1;
    }
    while true
      invariant 0 <= count && (count == 0 || count < p.maxLinesearch)
      invariant forall k :: 0 <= k < |s| ==> wp[k] == OrthantSign(xp[k], gp[k])
      invariant stp == Halved(stp0, count) && 0.0 < stp
      invariant forall k :: 0 <= k < count ==>
                  var t := Halved(stp0, k);
                  !OwlqnAccepts(obj, xp, s, gp, finit, p, start, end, t) && p.minStep <= t <= p.maxStep
      decreases p.maxLinesearch - count
    {
      VecCpy(x, xp);
      VecAdd(x, s, stp);
      Project(x, wp[..], start, end);
      assert x[..] == Trial(xp, s, gp, start, end, stp);
      f := obj.f(x[..]);
      VecCpy(g, obj.grad(x[..]));
      var norm := X1Norm(x[..], start, end);
      f := f + Mul(norm, p.orthantwiseC);
      count := count + 1;
      evals := count;
      var dgtest := ProjectedSlope(x[..], xp, gp);
      if f <= finit + Mul(p.ftol, dgtest) { return count, f, stp, count; }
      if stp < p.minStep { return LBFGSERR_MINIMUMSTEP, f, stp, count; }
      if stp > p.maxStep { return LBFGSERR_MAXIMUMSTEP, f, stp, count; }
      if p.maxLinesearch <= count { return LBFGSERR_MAXIMUMLINESEARCH, f, stp, count; }
      stp := stp * 0.5;
    }
  }
}
