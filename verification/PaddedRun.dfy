/** The vectorised build rounds the number of variables up to a multiple of eight and lets the client see
    the true length (src/lbfgs.c). A run over the padded vectors is, on the true lanes, a run over the
    vectors without padding. */
module PaddedRun {
  import opened Interpolation
  import opened Vectors
  import opened Kernels
  import opened Padding
  import opened QuasiNewton
  import opened Objectives
  import opened LbfgsDriver
  import Backtracking
  import MoreThuente

  /** On vectors of n lanes with zeros from live on, obj is what the client computes from the first live
      lanes; the padding of its gradients stays zero. */
  ghost predicate Pads(obj: Objective, small: Objective, n: nat, live: nat) {
    && live <= n && IsObjective(obj, n) && IsObjective(small, live)
    && forall v: Vec :: |v| == n && ZeroTail(v, live) ==>
         obj.f(v) == small.f(v[..live]) && obj.grad(v)[..live] == small.grad(v[..live]) && ZeroTail(obj.grad(v), live)
  }

  // ----- along a line -----

  lemma LinePadded(obj: Objective, small: Objective, xp: Vec, d: Vec, live: nat, t: real)
    requires |xp| == |d| && Pads(obj, small, |xp|, live) && ZeroTail(xp, live) && ZeroTail(d, live)
    ensures Value(obj, xp, d, t) == Value(small, xp[..live], d[..live], t)
    ensures Slope(obj, xp, d, t) == Slope(small, xp[..live], d[..live], t)
  {
    hide Mul, Dot;
    KernelsPadded(d, xp, t, live);
    var v := Axpy(xp, t, d);
    DotPadded(obj.grad(v), d, live);
  }

  lemma {:induction false} StepAtPadded(obj: Objective, small: Objective, xp: Vec, d: Vec, live: nat, f0: real,
                                        dg0: real, p: Params, t0: real, k: nat)
    requires |xp| == |d| && Pads(obj, small, |xp|, live) && ZeroTail(xp, live) && ZeroTail(d, live)
    ensures Backtracking.StepAt(obj, xp, d, f0, dg0, p, t0, k)
         == Backtracking.StepAt(small, xp[..live], d[..live], f0, dg0, p, t0, k)
  {
    hide Value, Slope, Mul, Pads;
    PadsObjective(obj, small, |xp|, live);
    if k > 0 {
      StepAtPadded(obj, small, xp, d, live, f0, dg0, p, t0, k - 1);
      LinePadded(obj, small, xp, d, live, Backtracking.StepAt(obj, xp, d, f0, dg0, p, t0, k - 1));
    }
  }

  lemma PadsObjective(obj: Objective, small: Objective, n: nat, live: nat)
    requires Pads(obj, small, n, live)
    ensures live <= n && IsObjective(obj, n) && IsObjective(small, live)
  {}

  lemma {:induction false} ReachPadded(obj: Objective, small: Objective, xp: Vec, d: Vec, live: nat, e: MoreThuente.Env,
                                       stp0: real, k: nat)
    requires |xp| == |d| && Pads(obj, small, |xp|, live) && ZeroTail(xp, live) && ZeroTail(d, live)
    ensures MoreThuente.Reach(e, stp0, MoreThuente.Phi(obj, xp, d), MoreThuente.DPhi(obj, xp, d), k)
         == MoreThuente.Reach(e, stp0, MoreThuente.Phi(small, xp[..live], d[..live]),
                              MoreThuente.DPhi(small, xp[..live], d[..live]), k)
  {
    hide Value, Slope, Mul, Pads, MoreThuente.Step, MoreThuente.TrialPoint, MoreThuente.Init;
    PadsObjective(obj, small, |xp|, live);
    if k > 0 {
      ReachPadded(obj, small, xp, d, live, e, stp0, k - 1);
      var r := MoreThuente.Reach(e, stp0, MoreThuente.Phi(obj, xp, d), MoreThuente.DPhi(obj, xp, d), k - 1);
      if r.More? { LinePadded(obj, small, xp, d, live, MoreThuente.TrialPoint(e, r.next)); }
    }
  }

  /** Padding changes neither the trial steps of a search nor which of them it accepts. */
  lemma SearchPadded(obj: Objective, small: Objective, xp: Vec, d: Vec, live: nat, f0: real, dg0: real, p: Params,
                     sqrt: real -> real, stp0: real, t: real)
    requires |xp| == |d| && Pads(obj, small, |xp|, live) && ZeroTail(xp, live) && ZeroTail(d, live)
    ensures IsObjective(obj, |d|) && IsObjective(small, live)
    ensures SmoothTried(obj, xp, d, f0, dg0, p, sqrt, stp0, t)
            <==> SmoothTried(small, xp[..live], d[..live], f0, dg0, p, sqrt, stp0, t)
    ensures SmoothAccepts(obj, xp, d, f0, dg0, p, t) <==> SmoothAccepts(small, xp[..live], d[..live], f0, dg0, p, t)
  {
    PadsObjective(obj, small, |xp|, live);
    hide Value, Slope, Mul, Abs, Pads, ZeroTail, MoreThuente.Reach, MoreThuente.TrialPoint, MoreThuente.Phi,
         MoreThuente.DPhi, Backtracking.StepAt, Backtracking.Accepts, MoreThuente.Accepts;
    AcceptsPadded(obj, small, xp, d, live, f0, dg0, p, t);
    forall k: nat
      ensures SmoothTrial(obj, xp, d, f0, dg0, p, sqrt, stp0, k, t)
              <==> SmoothTrial(small, xp[..live], d[..live], f0, dg0, p, sqrt, stp0, k, t)
    {
      ReachPadded(obj, small, xp, d, live, MoreThuente.Env(f0, dg0, p, sqrt), stp0, k);
      forall i: nat { StepAtPadded(obj, small, xp, d, live, f0, dg0, p, stp0, i); }
      forall u { AcceptsPadded(obj, small, xp, d, live, f0, dg0, p, u); }
    }
  }

  lemma AcceptsPadded(obj: Objective, small: Objective, xp: Vec, d: Vec, live: nat, f0: real, dg0: real, p: Params,
                      t: real)
    requires |xp| == |d| && Pads(obj, small, |xp|, live) && ZeroTail(xp, live) && ZeroTail(d, live)
    ensures IsObjective(obj, |d|) && IsObjective(small, live)
    ensures Backtracking.Accepts(obj, xp, d, f0, dg0, p, t)
            <==> Backtracking.Accepts(small, xp[..live], d[..live], f0, dg0, p, t)
    ensures MoreThuente.Accepts(obj, xp, d, f0, dg0, p, t)
            <==> MoreThuente.Accepts(small, xp[..live], d[..live], f0, dg0, p, t)
  {
    hide Value, Slope, Mul, Abs;
    LinePadded(obj, small, xp, d, live, t);
  }

  // ----- the direction -----

  function CutPair(q: Pair, live: nat): Pair
    requires live <= |q.s| && live <= |q.y|
  {
    Pair(q.s[..live], q.y[..live])
  }

  function CutAll(ps: seq<Pair>, live: nat): (r: seq<Pair>)
    requires forall i :: 0 <= i < |ps| ==> live <= |ps[i].s| && live <= |ps[i].y|
    ensures |r| == |ps|
  {
    seq(|ps|, i requires 0 <= i < |ps| => CutPair(ps[i], live))
  }

  /** Corrections of n lanes with zero padding. */
  ghost predicate PaddedPairs(ps: seq<Pair>, n: nat, live: nat) {
    live <= n && AllValid(ps, n) && forall i :: 0 <= i < |ps| ==> PairTail(ps[i], live)
  }

  lemma CutValid(ps: seq<Pair>, n: nat, live: nat)
    requires PaddedPairs(ps, n, live)
    ensures AllValid(CutAll(ps, live), live)
    ensures forall i :: 0 <= i < |ps| ==> CutAll(ps, live)[i].Ys() == ps[i].Ys()
  {
    hide Dot;
    forall i | 0 <= i < |ps|
      ensures CutAll(ps, live)[i].Valid(live) && CutAll(ps, live)[i].Ys() == ps[i].Ys()
    {
      DotPadded(ps[i].y, ps[i].s, live);
    }
  }

  lemma DownPadded(q: Pair, v: Vec, live: nat)
    requires q.Valid(|v|) && live <= |v| && PairTail(q, live) && ZeroTail(v, live)
    ensures CutPair(q, live).Valid(live) && ZeroTail(Down(q, v), live)
    ensures Alpha(CutPair(q, live), v[..live]) == Alpha(q, v)
    ensures Down(CutPair(q, live), v[..live]) == Down(q, v)[..live]
    ensures Beta(CutPair(q, live), v[..live]) == Beta(q, v)
  {
    hide Dot, Axpy, Quot;
    DotPadded(q.y, q.s, live);
    DotPadded(q.s, v, live);
    DotPadded(q.y, v, live);
    KernelsPadded(q.y, v, -Alpha(q, v), live);
  }

  lemma {:induction false} ApplyPadded(ps: seq<Pair>, scale: real, v: Vec, live: nat)
    requires PaddedPairs(ps, |v|, live) && ZeroTail(v, live)
    ensures AllValid(CutAll(ps, live), live)
    ensures ApplyH(ps, scale, v)[..live] == ApplyH(CutAll(ps, live), scale, v[..live])
  {
    hide Dot, Axpy, Alpha;
    CutValid(ps, |v|, live);
    if |ps| == 0 {
      KernelsPadded(v, v, scale, live);
    } else {
      var q, rest := ps[|ps| - 1], ps[..|ps| - 1];
      LastPair(ps, |v|, live);
      ApplyPadded(rest, scale, Down(q, v), live);
      ApplyStep(ps, rest, q, scale, v, live);
    }
  }

  lemma ApplyStep(ps: seq<Pair>, rest: seq<Pair>, q: Pair, scale: real, v: Vec, live: nat)
    requires live <= |v| && ZeroTail(v, live) && q.Valid(|v|) && PairTail(q, live) && ps == rest + [q]
    requires PaddedPairs(ps, |v|, live) && PaddedPairs(rest, |v|, live)
    requires AllValid(ps, |v|) && AllValid(rest, |v|)
    requires AllValid(CutAll(ps, live), live) && AllValid(CutAll(rest, live), live)
    requires CutAll(ps, live) == CutAll(rest, live) + [CutPair(q, live)]
    requires ApplyH(rest, scale, Down(q, v))[..live] == ApplyH(CutAll(rest, live), scale, Down(q, v)[..live])
    ensures ApplyH(ps, scale, v)[..live] == ApplyH(CutAll(ps, live), scale, v[..live])
  {
    hide Dot, Axpy, Scale, Quot, Alpha, Beta, Down, ApplyH, ZeroTail, CutAll, CutPair;
    var q', r := CutPair(q, live), ApplyH(rest, scale, Down(q, v));
    var c := Alpha(q, v) - Beta(q, r);
    DownPadded(q, v, live);
    ApplyHTail(rest, scale, Down(q, v), live);
    DownPadded(q, r, live);
    KernelsPadded(q.s, r, c, live);
    ApplyLast(ps, rest, q, scale, v, r, c);
    assert q'.s == q.s[..live] by { CutParts(q, live); }
    ApplyLast(CutAll(ps, live), CutAll(rest, live), q', scale, v[..live], r[..live], c);
  }

  lemma CutParts(q: Pair, live: nat)
    requires live <= |q.s| && live <= |q.y|
    ensures CutPair(q, live).s == q.s[..live] && CutPair(q, live).y == q.y[..live]
  {}

  lemma LastPair(ps: seq<Pair>, n: nat, live: nat)
    requires PaddedPairs(ps, n, live) && |ps| > 0
    ensures var q, rest := ps[|ps| - 1], ps[..|ps| - 1];
      && q.Valid(n) && PairTail(q, live) && PaddedPairs(rest, n, live) && AllValid(rest, n)
      && (forall i :: 0 <= i < |rest| ==> PairTail(rest[i], live))
      && CutAll(ps, live) == CutAll(rest, live) + [CutPair(q, live)]
  {
    hide Dot;
  }

  lemma ApplyLast(ps: seq<Pair>, rest: seq<Pair>, q: Pair, scale: real, v: Vec, r: Vec, c: real)
    requires ps == rest + [q] && q.Valid(|v|) && AllValid(ps, |v|) && AllValid(rest, |v|)
    requires r == ApplyH(rest, scale, Down(q, v)) && c == Alpha(q, v) - Beta(q, r)
    ensures ApplyH(ps, scale, v) == Axpy(r, c, q.s)
  {
    assert ps[..|ps| - 1] == rest;
    hide Dot, Axpy, Scale, Quot, Alpha, Beta, Down;
  }

  /** The direction of the padded run is that of the true vectors, with zero padding. */
  lemma DirectionPadded(hist: seq<Pair>, m: nat, g: Vec, live: nat)
    requires PaddedPairs(hist, |g|, live) && ZeroTail(g, live)
    ensures AllValid(CutAll(hist, live), live) && ZeroTail(Direction(hist, m, g), live)
    ensures Direction(hist, m, g)[..live] == Direction(CutAll(hist, live), m, g[..live])
  {
    hide Dot, InverseHessian, MatVec, ApplyH;
    KernelsPadded(g, g, 0.0, live);
    CutValid(hist, |g|, live);
    if |hist| > 0 {
      var bound := if m <= |hist| then m else |hist|;
      var ps, last := Newest(hist, bound), hist[|hist| - 1];
      var scale := ScaleOf(last);
      DotPadded(last.y, last.s, live);
      DotPadded(last.y, last.y, live);
      assert CutAll(ps, live) == Newest(CutAll(hist, live), bound);
      ApplyPadded(ps, scale, Neg(g), live);
      ApplyHTail(ps, scale, Neg(g), live);
      ApplyIsMatrix(ps, scale, Neg(g));
      ApplyIsMatrix(CutAll(ps, live), scale, Neg(g)[..live]);
    }
  }

  // ----- whole runs -----

  /** A point of the run, with zero padding. */
  ghost predicate PaddedPoint(a: Waypoint, n: nat, live: nat) {
    && |a.x| == n && live <= n && ZeroTail(a.x, live)
    && forall i :: 0 <= i < |a.hist| ==> |a.hist[i].s| == |a.hist[i].y| == n && PairTail(a.hist[i], live)
  }

  ghost function Cut(a: Waypoint, n: nat, live: nat): Waypoint
    requires PaddedPoint(a, n, live)
  {
    Waypoint(a.x[..live], CutAll(a.hist, live), a.step)
  }

  /** The new correction. */
  lemma CorrectionPadded(obj: Objective, small: Objective, n: nat, live: nat, x: Vec, v: Vec) returns (q: Pair)
    requires Pads(obj, small, n, live) && |x| == |v| == n && ZeroTail(x, live) && ZeroTail(v, live)
    ensures q == Pair(Sub(v, x), Sub(obj.grad(v), obj.grad(x))) && PairTail(q, live)
    ensures CutPair(q, live) == Pair(Sub(v[..live], x[..live]), Sub(small.grad(v[..live]), small.grad(x[..live])))
  {
    KernelsPadded(v, x, 0.0, live);
    KernelsPadded(obj.grad(v), obj.grad(x), 0.0, live);
    q := Pair(Sub(v, x), Sub(obj.grad(v), obj.grad(x)));
  }

  lemma PadsAt(obj: Objective, small: Objective, n: nat, live: nat, v: Vec)
    requires Pads(obj, small, n, live) && |v| == n && ZeroTail(v, live)
    ensures live <= n && IsObjective(obj, n) && IsObjective(small, live)
    ensures |obj.grad(v)| == n && |small.grad(v[..live])| == live
    ensures obj.f(v) == small.f(v[..live])
    ensures obj.grad(v)[..live] == small.grad(v[..live]) && ZeroTail(obj.grad(v), live)
  {}

  /** One padded iteration is an iteration on the true vectors. */
  lemma TurnPadded(obj: Objective, small: Objective, n: nat, live: nat, p: Params, sqrt: real -> real, a: Waypoint,
                   b: Waypoint)
    requires Pads(obj, small, n, live) && PaddedPoint(a, n, live) && Turn(obj, n, p, sqrt, a, b)
    ensures PaddedPoint(b, n, live) && Turn(small, live, p, sqrt, Cut(a, n, live), Cut(b, n, live))
  {
    hide SmoothTried, SmoothAccepts, Direction, Dot, Axpy, Pads, IsObjective;
    PadsAt(obj, small, n, live, a.x);
    var f, g := obj.f(a.x), obj.grad(a.x);
    var d := Direction(a.hist, p.m, g);
    DirectionPadded(a.hist, p.m, g, live);
    DotPadded(g, d, live);
    var t :| SmoothTried(obj, a.x, d, f, Dot(g, d), p, sqrt, a.step, t)
             && SmoothAccepts(obj, a.x, d, f, Dot(g, d), p, t) && b.x == Axpy(a.x, t, d);
    SearchPadded(obj, small, a.x, d, live, f, Dot(g, d), p, sqrt, a.step, t);
    KernelsPadded(d, a.x, t, live);
    hide ZeroTail, AllValid;
    var q := CorrectionPadded(obj, small, n, live, a.x, b.x);
    assert CutAll(b.hist, live) == CutAll(a.hist, live) + [CutPair(q, live)];
    TurnIs(small, live, p, sqrt, Cut(a, n, live), Cut(b, n, live), t);
  }

  lemma TurnIs(obj: Objective, n: nat, p: Params, sqrt: real -> real, a: Waypoint, b: Waypoint, t: real)
    requires IsObjective(obj, n) && |a.x| == |b.x| == n && AllValid(a.hist, n) && 0 < p.m && b.step == 1.0
    requires b.hist == a.hist + [Pair(Sub(b.x, a.x), Sub(obj.grad(b.x), obj.grad(a.x)))]
    requires var f, g := obj.f(a.x), obj.grad(a.x);
      var d := Direction(a.hist, p.m, g);
      && SmoothTried(obj, a.x, d, f, Dot(g, d), p, sqrt, a.step, t)
      && SmoothAccepts(obj, a.x, d, f, Dot(g, d), p, t) && b.x == Axpy(a.x, t, d)
    ensures Turn(obj, n, p, sqrt, a, b)
  {
    hide SmoothTried, SmoothAccepts, Direction, Dot, Axpy;
  }

  ghost predicate PaddedPath(path: seq<Waypoint>, n: nat, live: nat) {
    forall i :: 0 <= i < |path| ==> PaddedPoint(path[i], n, live)
  }

  ghost function CutPath(path: seq<Waypoint>, n: nat, live: nat): (r: seq<Waypoint>)
    requires PaddedPath(path, n, live)
    ensures |r| == |path| && forall i :: 0 <= i < |path| ==> r[i] == Cut(path[i], n, live)
  {
    seq(|path|, i requires 0 <= i < |path| => Cut(path[i], n, live))
  }

  lemma LastTurn(obj: Objective, n: nat, p: Params, sqrt: real -> real, path: seq<Waypoint>)
    requires Turns(obj, n, p, sqrt, path) && |path| > 1
    ensures Turns(obj, n, p, sqrt, path[..|path| - 1])
    ensures Turn(obj, n, p, sqrt, path[|path| - 2], path[|path| - 1])
  {
    hide Turn;
    var front, k := path[..|path| - 1], |path| - 2;
    forall i | 0 <= i < |front| - 1 ensures Turn(obj, n, p, sqrt, front[i], front[i + 1]) {
      assert Turn(obj, n, p, sqrt, path[i], path[i + 1]);
    }
    assert Turn(obj, n, p, sqrt, path[k], path[k + 1]);
  }

  lemma {:induction false} TurnsPadded(obj: Objective, small: Objective, n: nat, live: nat, p: Params,
                                       sqrt: real -> real, path: seq<Waypoint>)
    requires Pads(obj, small, n, live) && Turns(obj, n, p, sqrt, path) && PaddedPoint(path[0], n, live)
    ensures PaddedPath(path, n, live) && Turns(small, live, p, sqrt, CutPath(path, n, live))
  {
    hide Pads, PaddedPoint, Turn, Cut;
    var k := |path| - 1;
    if k > 0 {
      var front := path[..k];
      LastTurn(obj, n, p, sqrt, path);
      TurnsPadded(obj, small, n, live, p, sqrt, front);
      TurnPadded(obj, small, n, live, p, sqrt, path[k - 1], path[k]);
      assert path == front + [path[k]];
      assert CutPath(path, n, live) == CutPath(front, n, live) + [Cut(path[k], n, live)];
      OneMore(small, live, p, sqrt, CutPath(front, n, live), Cut(path[k], n, live));
    }
  }

  /** On the true lanes a whole padded run from x0 is a run of the unpadded problem from the true x0: same
      first step, and iteration by iteration the same trial steps, acceptances, directions and corrections. */
  lemma PaddedRunIsRun(obj: Objective, small: Objective, n: nat, live: nat, p: Params, sqrt: real -> real, x0: Vec,
                       path: seq<Waypoint>)
    requires Pads(obj, small, n, live) && |x0| == n && ZeroTail(x0, live)
    requires Turns(obj, n, p, sqrt, path) && path[0] == StartPoint(obj, x0, sqrt)
    ensures PaddedPath(path, n, live)
    ensures var cut := CutPath(path, n, live);
      && Turns(small, live, p, sqrt, cut) && cut[0] == StartPoint(small, x0[..live], sqrt)
      && cut[|cut| - 1].x == path[|path| - 1].x[..live]
  {
    hide Turn, Dot, Pads, IsObjective, PaddedPoint;
    PadsAt(obj, small, n, live, x0);
    StartPadded(x0, live);
    TurnsPadded(obj, small, n, live, p, sqrt, path);
    var g := obj.grad(x0);
    DotPadded(g, g, live);
    assert CutAll([], live) == [];
  }

  lemma StartPadded(x0: Vec, live: nat)
    requires live <= |x0| && ZeroTail(x0, live)
    ensures forall step :: PaddedPoint(Waypoint(x0, [], step), |x0|, live)
  {}
}
