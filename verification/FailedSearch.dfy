/** A run of lbfgs() (src/lbfgs.c) that ends in a failed line search and reports another point's value. */
module FailedSearch {
  import opened Interpolation
  import opened LbfgsCodes
  import opened Vectors
  import opened Kernels
  import opened Objectives
  import opened LbfgsDriver

  /** t + 6 t^2, in one variable, with its derivative. */
  function Bump(): Objective {
    Objective(v => if |v| == 1 then v[0] + 6.0 * v[0] * v[0] else 0.0,
              v => if |v| == 1 then [1.0 + 12.0 * v[0]] else Zero(|v|))
  }

  /** Armijo backtracking with a single evaluation a search. */
  predicate OneTrial(p: Params) {
    && CheckParams(1, p) == 0 && 0 < p.m && p.orthantwiseC == 0.0
    && p.linesearch == LINESEARCH_BACKTRACKING_ARMIJO && p.maxLinesearch == 1 && p.epsilon < 1.0
  }

  lemma DotOne(a: real, b: real)
    ensures Dot([a], [b]) == Mul(a, b)
  {
    assert [a][..0] == [] && [b][..0] == [];
  }

  lemma RootOne(r: real)
    requires 0.0 <= r && r * r == 1.0
    ensures r == 1.0
  {
    if r < 1.0 { var q := MulPos(1.0 - r, 1.0 + r); }
    if 1.0 < r { var q := MulPos(r - 1.0, r + 1.0); }
  }

  lemma Norms(sqrt: real -> real)
    requires IsSqrt(sqrt)
    ensures Norm([0.0], sqrt) == 0.0 && Norm([1.0], sqrt) == 1.0 && Norm([-1.0], sqrt) == 1.0
  {
    DotOne(0.0, 0.0);
    DotOne(1.0, 1.0);
    DotOne(-1.0, -1.0);
    RootOne(sqrt(1.0));
    SquareZero(sqrt(0.0));
  }

  /** The only trial from 0 along -1 is the point -1, with value 5; it is not accepted. */
  lemma OnlyTrial(p: Params, sqrt: real -> real, t: real)
    requires OneTrial(p) && SmoothTried(Bump(), [0.0], [-1.0], 0.0, -1.0, p, sqrt, 1.0, t)
    ensures t == 1.0 && Value(Bump(), [0.0], [-1.0], t) == 5.0
    ensures !SmoothAccepts(Bump(), [0.0], [-1.0], 0.0, -1.0, p, t)
  {
    assert t == 1.0;
    assert Axpy([0.0], 1.0, [-1.0]) == [-1.0];
    CheckedParams(1, p);
  }

  /** The optimiser at its starting point 0, before the first search. */
  ghost predicate AtZero(o: Optimizer)
    reads o, o.x, o.g, o.d, o.pg
  {
    && o.Shape() && o.n == 1 && o.obj == Bump() && OneTrial(o.p)
    && o.x[..] == [0.0] && o.g[..] == [1.0] && o.fx == 0.0 && o.d[..] == [-1.0]
  }

  /** The gradient at 0 has norm one: the run starts, with a first step of one. */
  lemma Starts(o: Optimizer)
    requires o.Shape() && o.n == 1 && OneTrial(o.p) && o.x[..] == [0.0] && o.g[..] == [1.0]
    ensures !o.Converged()
  {
    hide CheckParams, Norm, IsSqrt, IsObjective;
    Norms(o.sqrt);
  }

  lemma FirstStep(sqrt: real -> real)
    requires IsSqrt(sqrt)
    ensures StartPoint(Bump(), [0.0], sqrt).step == 1.0
  {
    hide Norm, IsSqrt;
    Norms(sqrt);
  }

  lemma EvaluatedAtZero(o: Optimizer)
    requires o.Shape() && o.n == 1 && o.obj == Bump() && OneTrial(o.p) && o.x[..] == [0.0] && o.Evaluated()
    ensures o.g[..] == [1.0] && o.fx == 0.0
  {
    hide CheckParams, IsSqrt, IsObjective;
  }

  lemma DirectedAtZero(o: Optimizer)
    requires o.Shape() && o.n == 1 && o.obj == Bump() && OneTrial(o.p) && o.x[..] == [0.0] && o.Evaluated()
    requires o.Remembers() && o.Directed() && o.hist == []
    ensures AtZero(o)
  {
    EvaluatedAtZero(o);
    hide CheckParams, IsSqrt, Optimizer.Evaluated, Optimizer.Remembers, Dot;
  }

  /** No trial step is accepted, and the search leaves the value at -1 behind. */
  lemma Fails(o: Optimizer, ls: int, t: real)
    requires o.Shape() && o.n == 1 && o.obj == Bump() && OneTrial(o.p)
    ensures !o.Taken([0.0], [-1.0], [1.0], 0.0, 1.0, t)
    ensures o.SearchEnds([0.0], [-1.0], [1.0], 0.0, 1.0, ls) ==> o.fx == 5.0
  {
    hide CheckParams, SmoothTried, SmoothAccepts, Value, IsSqrt, Progress;
    DotOne(1.0, -1.0);
    if SmoothTried(Bump(), [0.0], [-1.0], 0.0, -1.0, o.p, o.sqrt, 1.0, t) { OnlyTrial(o.p, o.sqrt, t); }
    if o.SearchEnds([0.0], [-1.0], [1.0], 0.0, 1.0, ls) { OnlyTrial(o.p, o.sqrt, o.step); }
  }

  method FirstIteration(o: Optimizer) returns (st: Status)
    requires AtZero(o) && o.Valid() && o.step == 1.0
    modifies o, o.x, o.g, o.d, o.w, o.pg, o.lm
    ensures st.SearchFailed? && o.x[..] == [0.0] && o.fx == 5.0
  {
    hide CheckParams, IsSqrt, Optimizer.Taken, Optimizer.SearchEnds, Optimizer.Converged, Optimizer.Remembers, Dot, Mul,
         Optimizer.Evaluated, Optimizer.Directed, Optimizer.Traced, Optimizer.PastHolds, Optimizer.PadsZero, Norm,
         Optimizer.StopsWith, Optimizer.Descending, Optimizer.PointAt, OneTrial, Bump, Optimizer.Cost;
    assert o.SlopeAt() == [1.0] by { Unregularised(o.p); }
    st := o.Iterate();
    forall t { Fails(o, 0, t); }
    if st.SearchFailed? { Fails(o, st.ret, 0.0); }
  }

  lemma Unregularised(p: Params)
    requires OneTrial(p)
    ensures p.orthantwiseC == 0.0
  {}

  /** Started at 0, the run fails, goes back to 0, and reports 5, the value at the rejected point -1. */
  method ReportsRejectedValue(x: array<real>, p: Params, sqrt: real -> real, progress: ProgressCallback)
    returns (st: Status, fx: real)
    requires x.Length == 1 && x[..] == [0.0] && OneTrial(p) && IsSqrt(sqrt)
    modifies x
    ensures st.SearchFailed? && x[..] == [0.0] && fx == 5.0 && Bump().f(x[..]) == 0.0
  {
    var opt := new Optimizer(1, x, Bump(), p, sqrt, progress, 1);
    hide CheckParams, IsSqrt, Optimizer.Remembers, Optimizer.Evaluated, Optimizer.Directed, Optimizer.Traced,
         Optimizer.Converged, Optimizer.PastHolds, Optimizer.PadsZero, Optimizer.TailsZero, StartPoint, Bump, OneTrial;
    var minimized := Begin(opt);
    Unregularised(p);
    FirstStep(sqrt);
    EvaluatedAtZero(opt);
    Starts(opt);
    DirectedAtZero(opt);
    st := FirstIteration(opt);
    fx := opt.fx;
    AtStart();
  }

  lemma AtStart()
    ensures Bump().f([0.0]) == 0.0
  {}
}
