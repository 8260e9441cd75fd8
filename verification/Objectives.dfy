/** Objective functions, lines through them, and the parameters of the optimiser. */
module Objectives {
  import opened Interpolation
  import opened Vectors
  import opened Kernels

  /** The client's evaluation callback: value and gradient, the latter of the right length. */
  datatype Objective = Objective(f: Vec -> real, grad: Vec -> Vec)

  ghost predicate IsObjective(obj: Objective, n: nat) {
    forall x: Vec :: |x| == n ==> |obj.grad(x)| == n
  }

  /** Value and directional derivative at the point xp + t s. */
  ghost function Value(obj: Objective, xp: Vec, s: Vec, t: real): real
    requires |xp| == |s|
  {
    obj.f(Axpy(xp, t, s))
  }

  ghost function Slope(obj: Objective, xp: Vec, s: Vec, t: real): real
    requires |xp| == |s| && IsObjective(obj, |s|)
  {
    Dot(obj.grad(Axpy(xp, t, s)), s)
  }

  const LINESEARCH_MORETHUENTE := 0
  const LINESEARCH_BACKTRACKING_ARMIJO := 1
  const LINESEARCH_BACKTRACKING_WOLFE := 2
  const LINESEARCH_BACKTRACKING_STRONG_WOLFE := 3

  /** lbfgs_parameter_t */
  datatype Params = Params(m: int, epsilon: real, past: int, delta: real, maxIterations: int,
                           linesearch: int, maxLinesearch: int, minStep: real, maxStep: real,
                           ftol: real, wolfe: real, gtol: real, xtol: real,
                           orthantwiseC: real, orthantwiseStart: int, orthantwiseEnd: int)

  lemma StepZero(xp: Vec, s: Vec)
    requires |xp| == |s|
    ensures Axpy(xp, 0.0, s) == xp
  {}

  /** The evaluation at the head of each search loop: x <- xp + stp s, then value and gradient. */
  method EvaluateOnLine(x: array<real>, g: array<real>, xp: Vec, s: Vec, stp: real, obj: Objective) returns (f: real)
    requires x != g && x.Length == g.Length == |s| == |xp| && IsObjective(obj, |s|)
    modifies x, g
    ensures x[..] == Axpy(xp, stp, s) && f == obj.f(x[..]) == Value(obj, xp, s, stp) && g[..] == obj.grad(x[..])
    ensures Dot(g[..], s) == Slope(obj, xp, s, stp)
  {
    hide Axpy, Dot, Mul;
    VecCpy(x, xp);
    VecAdd(x, s, stp);
    f := obj.f(x[..]);
    VecCpy(g, obj.grad(x[..]));
  }
}
