/** The limited-memory inverse Hessian of src/lbfgs.c: its matrix definition, and the two loops over
    the ring buffer that apply it without ever building it. */
module QuasiNewton {
  import opened Interpolation
  import opened Vectors
  import opened Kernels

  /** One correction: s = x' - x and y = g' - g. */
  datatype Pair = Pair(s: Vec, y: Vec) {
    predicate Valid(n: nat) { |s| == n && |y| == n && Dot(y, s) != 0.0 }
    function Ys(): real requires |s| == |y| { Dot(y, s) }
    function Rho(): real requires |s| == |y| && Ys() != 0.0 { 1.0 / Ys() }
  }

  predicate AllValid(ps: seq<Pair>, n: nat) {
    forall i :: 0 <= i < |ps| ==> ps[i].Valid(n)
  }

  // ----- the definition: H' = V^T H V + rho s s^T with V = I - rho y s^T -----

  function CurvatureMatrix(p: Pair, n: nat): (v: Mat)
    requires p.Valid(n)
    ensures Square(v, n)
  {
    MatAxpy(ScaledIdentity(1.0, n), -(p.Rho()), Outer(p.y, p.s), n)
  }

  function BfgsUpdate(h: Mat, p: Pair, n: nat): (r: Mat)
    requires p.Valid(n) && Square(h, n)
    ensures Square(r, n)
  {
    var v := CurvatureMatrix(p, n);
    MatAxpy(MatMul(Transpose(v, n), MatMul(h, v, n), n), p.Rho(), Outer(p.s, p.s), n)
  }

  /** Starting from scale times the identity, one update a pair, oldest first. */
  function InverseHessian(ps: seq<Pair>, scale: real, n: nat): (h: Mat)
    requires AllValid(ps, n)
    ensures Square(h, n)
  {
    if |ps| == 0 then ScaledIdentity(scale, n)
    else BfgsUpdate(InverseHessian(ps[..|ps|-1], scale, n), ps[|ps|-1], n)
  }

  // ----- the recursion that the two loops unroll -----

  function Alpha(p: Pair, v: Vec): real
    requires p.Valid(|v|)
  {
    Quot(Dot(p.s, v), p.Ys())
  }

  function Beta(p: Pair, v: Vec): real
    requires p.Valid(|v|)
  {
    Quot(Dot(p.y, v), p.Ys())
  }

  /** V v */
  function Down(p: Pair, v: Vec): (r: Vec)
    requires p.Valid(|v|)
    ensures |r| == |v|
  {
    Axpy(v, -Alpha(p, v), p.y)
  }

  function ApplyH(ps: seq<Pair>, scale: real, v: Vec): (r: Vec)
    requires AllValid(ps, |v|)
    ensures |r| == |v|
  {
    if |ps| == 0 then Scale(scale, v)
    else
      var p := ps[|ps|-1];
      var r := ApplyH(ps[..|ps|-1], scale, Down(p, v));
      Axpy(r, Alpha(p, v) - Beta(p, r), p.s)
  }

  /** (I + a x y^T) v */
  lemma RankOneVec(a: real, x: Vec, y: Vec, v: Vec)
    requires |x| == |y| == |v|
    ensures MatVec(MatAxpy(ScaledIdentity(1.0, |v|), a, Outer(x, y), |v|), v) == Axpy(v, Mul(a, Dot(y, v)), x)
  {
    MatAxpyVec(ScaledIdentity(1.0, |v|), a, Outer(x, y), v);
    ScaledIdentityVec(1.0, v);
    OuterVec(x, y, v);
    RankOneStep(v, a, Dot(y, v), x);
  }

  lemma RankOneStep(v: Vec, a: real, c: real, x: Vec)
    requires |v| == |x|
    ensures Axpy(Scale(1.0, v), a, Scale(c, x)) == Axpy(v, Mul(a, c), x)
  {
    var l, r := Axpy(Scale(1.0, v), a, Scale(c, x)), Axpy(v, Mul(a, c), x);
    forall i | 0 <= i < |v|
      ensures l[i] == r[i]
    {
      ScaledProduct(a, c, x[i], a * c);
    }
  }

  lemma RhoTimes(p: Pair, v: Vec)
    requires p.Valid(|v|)
    ensures Mul(-p.Rho(), Dot(p.s, v)) == -Alpha(p, v) && Mul(p.Rho(), Dot(p.s, v)) == Alpha(p, v)
    ensures Mul(-p.Rho(), Dot(p.y, v)) == -Beta(p, v)
  {
    ReciprocalTimes(Dot(p.s, v), p.Ys());
    ReciprocalTimes(Dot(p.y, v), p.Ys());
  }

  lemma ReciprocalTimes(c: real, ys: real)
    requires ys != 0.0
    ensures Mul(1.0 / ys, c) == Quot(c, ys) && Mul(-(1.0 / ys), c) == -Quot(c, ys)
  {}

  lemma CurvatureVec(p: Pair, v: Vec)
    requires p.Valid(|v|)
    ensures MatVec(CurvatureMatrix(p, |v|), v) == Down(p, v)
  {
    RankOneVec(-p.Rho(), p.y, p.s, v);
    RhoTimes(p, v);
  }

  lemma ScaledProduct(a: real, b: real, z: real, ab: real)
    requires a * b == ab
    ensures Mul(a, Mul(b, z)) == Mul(ab, z)
  {}

  lemma TransposedCurvature(p: Pair, n: nat)
    requires p.Valid(n)
    ensures Transpose(CurvatureMatrix(p, n), n)
         == MatAxpy(ScaledIdentity(1.0, n), -(p.Rho()), Outer(p.s, p.y), n)
  {
    var a := Transpose(CurvatureMatrix(p, n), n);
    var b := MatAxpy(ScaledIdentity(1.0, n), -(p.Rho()), Outer(p.s, p.y), n);
    forall i | 0 <= i < n
      ensures a[i] == b[i]
    {
      forall j | 0 <= j < n
        ensures a[i][j] == b[i][j]
      {
        MulFacts(p.y[j], p.s[i], 0.0);
      }
    }
  }

  lemma TransposedCurvatureVec(p: Pair, r: Vec)
    requires p.Valid(|r|)
    ensures MatVec(Transpose(CurvatureMatrix(p, |r|), |r|), r) == Axpy(r, -Beta(p, r), p.s)
  {
    hide Transpose, CurvatureMatrix, MatVec, Dot;
    TransposedCurvature(p, |r|);
    RankOneVec(-p.Rho(), p.s, p.y, r);
    RhoTimes(p, r);
  }

  lemma MergeSteps(r: Vec, b: real, rho: real, c: real, s: Vec, a: real)
    requires |r| == |s| && Mul(rho, c) == a
    ensures Axpy(Axpy(r, -b, s), rho, Scale(c, s)) == Axpy(r, a - b, s)
  {
    var l, r' := Axpy(Axpy(r, -b, s), rho, Scale(c, s)), Axpy(r, a - b, s);
    forall i | 0 <= i < |r|
      ensures l[i] == r'[i]
    {
      ScaledProduct(rho, c, s[i], a);
      MulFacts(-b, a, s[i]);
    }
  }

  lemma SandwichVec(h: Mat, p: Pair, v: Vec)
    requires p.Valid(|v|) && Square(h, |v|)
    ensures var n, m := |v|, CurvatureMatrix(p, |v|);
            var r := MatVec(h, Down(p, v));
            MatVec(MatMul(Transpose(m, n), MatMul(h, m, n), n), v) == Axpy(r, -Beta(p, r), p.s)
  {
    hide Transpose, CurvatureMatrix, MatMul, MatVec, Axpy, Dot, Down, Beta;
    var n, m := |v|, CurvatureMatrix(p, |v|);
    CurvatureVec(p, v);
    MatMulVec(h, m, v);
    MatMulVec(Transpose(m, n), MatMul(h, m, n), v);
    TransposedCurvatureVec(p, MatVec(h, Down(p, v)));
  }

  lemma UpdateVec(h: Mat, p: Pair, v: Vec)
    requires p.Valid(|v|) && Square(h, |v|)
    ensures var r := MatVec(h, Down(p, v));
            MatVec(BfgsUpdate(h, p, |v|), v) == Axpy(r, Alpha(p, v) - Beta(p, r), p.s)
  {
    hide Transpose, CurvatureMatrix, MatMul, MatVec, Axpy, Dot, Down, Beta, Alpha, Outer, MatAxpy, Scale, Pair.Rho;
    var n, m := |v|, CurvatureMatrix(p, |v|);
    SandwichVec(h, p, v);
    MatAxpyVec(MatMul(Transpose(m, n), MatMul(h, m, n), n), p.Rho(), Outer(p.s, p.s), v);
    OuterVec(p.s, p.s, v);
    RhoTimes(p, v);
    var r := MatVec(h, Down(p, v));
    MergeSteps(r, Beta(p, r), p.Rho(), Dot(p.s, v), p.s, Alpha(p, v));
  }

  /** The recursion is multiplication by the matrix. */
  lemma {:induction false} ApplyIsMatrix(ps: seq<Pair>, scale: real, v: Vec)
    requires AllValid(ps, |v|)
    ensures ApplyH(ps, scale, v) == MatVec(InverseHessian(ps, scale, |v|), v)
  {
    hide BfgsUpdate, MatVec, Axpy, Scale, Dot, Down, Beta, Alpha;
    if |ps| == 0 {
      ScaledIdentityVec(scale, v);
    } else {
      var p, rest := ps[|ps|-1], ps[..|ps|-1];
      ApplyIsMatrix(rest, scale, Down(p, v));
      UpdateVec(InverseHessian(rest, scale, |v|), p, v);
    }
  }

  // ----- what the matrix is good for -----

  lemma AlphaTimes(p: Pair, v: Vec)
    requires p.Valid(|v|)
    ensures Mul(Alpha(p, v), p.Ys()) == Dot(p.s, v) && Mul(Beta(p, v), p.Ys()) == Dot(p.y, v)
  {}

  lemma MulNeg(a: real, b: real)
    ensures Mul(-a, b) == -Mul(a, b)
  {}

  lemma DotDown(p: Pair, u: Vec, w: Vec)
    requires p.Valid(|u|) && |w| == |u|
    ensures Dot(u, w) == Dot(Down(p, u), w) + Mul(Alpha(p, u), Dot(p.y, w))
  {
    hide Alpha, Dot, Axpy, Mul;
    DotAxpy(u, -Alpha(p, u), p.y, w);
    MulNeg(Alpha(p, u), Dot(p.y, w));
  }

  /** u^T H' v = (V u)^T H (V v) + rho (s^T u)(s^T v), with the last term written by alphas. */
  lemma BilinearUpdate(ps: seq<Pair>, scale: real, u: Vec, v: Vec, p: Pair, rest: seq<Pair>)
    requires |u| == |v| && AllValid(ps, |v|) && ps == rest + [p]
    ensures Dot(u, ApplyH(ps, scale, v))
         == Dot(Down(p, u), ApplyH(rest, scale, Down(p, v))) + Mul(Mul(Alpha(p, u), Alpha(p, v)), p.Ys())
  {
    hide Alpha, Beta, Dot, Axpy, Mul, Down;
    assert ps[..|ps|-1] == rest && ps[|ps|-1] == p;
    var r := ApplyH(rest, scale, Down(p, v));
    var au, av, b, ys := Alpha(p, u), Alpha(p, v), Beta(p, r), p.Ys();
    DotSymmetric(u, ApplyH(ps, scale, v));
    DotAxpy(r, av - b, p.s, u);
    DotSymmetric(r, u);
    DotDown(p, u, r);
    AlphaTimes(p, u);
    AlphaTimes(p, r);
    BilinearArithmetic(au, av, b, ys);
  }

  lemma BilinearArithmetic(au: real, av: real, b: real, ys: real)
    ensures Mul(au, Mul(b, ys)) + Mul(av - b, Mul(au, ys)) == Mul(Mul(au, av), ys)
  {}

  lemma {:induction false} InverseHessianSymmetric(ps: seq<Pair>, scale: real, u: Vec, v: Vec)
    requires |u| == |v| && AllValid(ps, |v|)
    ensures Dot(u, ApplyH(ps, scale, v)) == Dot(v, ApplyH(ps, scale, u))
  {
    if |ps| == 0 {
      DotSymmetric(u, Scale(scale, v)); DotScale(scale, v, u);
      DotSymmetric(v, Scale(scale, u)); DotScale(scale, u, v);
      DotSymmetric(u, v);
    } else {
      hide Dot, ApplyH, Down, Alpha, Mul;
      var p, rest := ps[|ps|-1], ps[..|ps|-1];
      BilinearUpdate(ps, scale, u, v, p, rest);
      BilinearUpdate(ps, scale, v, u, p, rest);
      InverseHessianSymmetric(rest, scale, Down(p, u), Down(p, v));
      MulFacts(Alpha(p, u), Alpha(p, v), p.Ys());
    }
  }

  lemma PositiveProduct(a: real, b: real)
    requires 0.0 < a && 0.0 <= b
    ensures 0.0 <= Mul(a, b) && (0.0 < b ==> 0.0 < Mul(a, b))
  {
    var p := MulNonNeg(a, b);
    if 0.0 < b { var q := MulPos(a, b); }
  }

  /** With positive curvature in every pair and a positive scale, H is positive definite. */
  lemma {:induction false} InverseHessianPositive(ps: seq<Pair>, scale: real, v: Vec)
    requires AllValid(ps, |v|) && 0.0 < scale
    requires forall i :: 0 <= i < |ps| ==> 0.0 < ps[i].Ys()
    ensures 0.0 <= Dot(v, ApplyH(ps, scale, v))
    ensures v != Zero(|v|) ==> 0.0 < Dot(v, ApplyH(ps, scale, v))
  {
    hide Mul, Alpha, Dot;
    if |ps| == 0 {
      DotSymmetric(v, Scale(scale, v));
      DotScale(scale, v, v);
      DotSelf(v);
      PositiveProduct(scale, Dot(v, v));
    } else {
      hide ApplyH;
      var p, rest := ps[|ps|-1], ps[..|ps|-1];
      var a := Alpha(p, v);
      BilinearUpdate(ps, scale, v, v, p, rest);
      InverseHessianPositive(rest, scale, Down(p, v));
      AxpyZero(v, p.y);
      SquareZero(a);
      MulFacts(Mul(a, a), p.Ys(), 0.0);
      PositiveProduct(p.Ys(), Mul(a, a));
    }
  }

  lemma AxpyZero(v: Vec, y: Vec)
    requires |v| == |y|
    ensures Axpy(v, -0.0, y) == v
  {}

  lemma ZeroCoefficients(p: Pair, n: nat)
    requires p.Valid(n)
    ensures Alpha(p, Zero(n)) == 0.0 && Beta(p, Zero(n)) == 0.0
  {
    DotSymmetric(p.s, Zero(n)); DotZero(n, p.s);
    DotSymmetric(p.y, Zero(n)); DotZero(n, p.y);
  }

  lemma {:induction false} ApplyHZero(ps: seq<Pair>, scale: real, n: nat)
    requires AllValid(ps, n)
    ensures ApplyH(ps, scale, Zero(n)) == Zero(n)
  {
    if |ps| > 0 {
      var p, rest := ps[|ps|-1], ps[..|ps|-1];
      ZeroCoefficients(p, n);
      AxpyZero(Zero(n), p.y); AxpyZero(Zero(n), p.s);
      ApplyHZero(rest, scale, n);
    }
  }

  lemma DownOwnY(p: Pair, n: nat)
    requires p.Valid(n)
    ensures Alpha(p, p.y) == 1.0 && Down(p, p.y) == Zero(n)
  {
    DotSymmetric(p.s, p.y);
    DivSelf(p.Ys());
  }

  lemma DivSelf(a: real)
    requires a != 0.0
    ensures a / a == 1.0
  {}

  /** The secant equation: H maps the newest y to the newest s. */
  lemma SecantEquation(ps: seq<Pair>, scale: real, n: nat)
    requires AllValid(ps, n) && |ps| > 0
    ensures MatVec(InverseHessian(ps, scale, n), ps[|ps|-1].y) == ps[|ps|-1].s
  {
    ApplyIsMatrix(ps, scale, ps[|ps|-1].y);
    ApplyOwnY(ps, scale, n);
  }

  lemma ApplyOwnY(ps: seq<Pair>, scale: real, n: nat)
    requires AllValid(ps, n) && |ps| > 0
    ensures ApplyH(ps, scale, ps[|ps|-1].y) == ps[|ps|-1].s
  {
    hide Alpha, Beta, Down, Dot, Mul;
    var p, rest := ps[|ps|-1], ps[..|ps|-1];
    DownOwnY(p, n);
    ApplyHZero(rest, scale, n);
    ZeroCoefficients(p, n);
    MulOne(p.s);
  }

  lemma MulOne(s: Vec)
    ensures Axpy(Zero(|s|), 1.0 - 0.0, s) == s
  {}

  /** Minus H times a non-zero gradient points downhill. */
  lemma DirectionDescends(ps: seq<Pair>, scale: real, g: Vec)
    requires AllValid(ps, |g|) && 0.0 < scale && g != Zero(|g|)
    requires forall i :: 0 <= i < |ps| ==> 0.0 < ps[i].Ys()
    ensures Dot(g, ApplyH(ps, scale, Neg(g))) < 0.0
  {
    var v := Neg(g);
    assert g == Neg(v);
    assert Neg(Zero(|g|)) == Zero(|g|);
    InverseHessianPositive(ps, scale, v);
    DotNeg(v, ApplyH(ps, scale, v));
  }
}
