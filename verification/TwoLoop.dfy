/** The two loops of src/lbfgs.c over the ring buffer of corrections. */
module TwoLoop {
  import opened Interpolation
  import opened Vectors
  import opened Kernels
  import opened QuasiNewton

  datatype IterationData = IterationData(alpha: real, s: Vec, y: Vec, ys: real)

  /** The slot of the back-th newest correction, when the next one goes to slot end. */
  function RingIndex(end: nat, m: nat, back: nat): (j: nat)
    requires end < m && 1 <= back <= m
    ensures j < m
  {
    if back <= end then end - back else end + m - back
  }

  ghost predicate RingValid(lm: seq<IterationData>, end: nat, bound: nat, n: nat) {
    && bound <= |lm| && end < |lm|
    && forall back :: 1 <= back <= bound ==>
         var e := lm[RingIndex(end, |lm|, back)];
         Pair(e.s, e.y).Valid(n) && e.ys == Dot(e.y, e.s)
  }

  /** The newest bound corrections, oldest first. */
  ghost function RingPairs(lm: seq<IterationData>, end: nat, bound: nat): (ps: seq<Pair>)
    requires bound <= |lm| && end < |lm|
    ensures |ps| == bound
    ensures forall back :: 1 <= back <= bound ==>
              var e := lm[RingIndex(end, |lm|, back)]; ps[bound - back] == Pair(e.s, e.y)
  {
    seq(bound, i requires 0 <= i < bound =>
      var e := lm[RingIndex(end, |lm|, bound - i)]; Pair(e.s, e.y))
  }

  lemma RingPairsValid(lm: seq<IterationData>, end: nat, bound: nat, n: nat)
    requires RingValid(lm, end, bound, n)
    ensures AllValid(RingPairs(lm, end, bound), n)
  {
    var ps := RingPairs(lm, end, bound);
    forall i | 0 <= i < bound ensures ps[i].Valid(n) {
      assert ps[bound - (bound - i)] == ps[i];
    }
  }

  /** The vector after the newest k corrections have been taken out. */
  ghost function Descend(ps: seq<Pair>, k: nat, v: Vec): (r: Vec)
    requires k <= |ps| && AllValid(ps, |v|)
    ensures |r| == |v|
  {
    if k == 0 then v else Down(ps[|ps| - k], Descend(ps, k - 1, v))
  }

  lemma ModOnce(a: nat, m: nat)
    requires a < m
    ensures (m + a) % m == a
  {
    var q, r := (m + a) / m, (m + a) % m;
    assert m * (q - 1) == a - r;
    assert q == 1;
  }

  lemma RingPrevMod(j: nat, m: nat)
    requires j < m
    ensures (j + m - 1) % m == if j == 0 then m - 1 else j - 1
  {
    if j > 0 { ModOnce(j - 1, m); assert j + m - 1 == m + (j - 1); }
  }

  function RingPrev(j: nat, m: nat): (r: nat)
    requires j < m
    ensures r == if j == 0 then m - 1 else j - 1
  {
    RingPrevMod(j, m);
    (j + m - 1) % m
  }

  function RingNext(j: nat, m: nat): (r: nat)
    requires j < m
    ensures r == if j == m - 1 then 0 else j + 1
  {
    (j + 1) % m
  }

  lemma RingStepDown(end: nat, m: nat, i: nat, j: nat)
    requires end < m && i < m && j == if i == 0 then end else RingIndex(end, m, i)
    ensures RingPrev(j, m) == RingIndex(end, m, i + 1)
  {
    hide RingPrev;
  }

  lemma RingStepUp(end: nat, m: nat, back: nat)
    requires end < m && 1 <= back <= m
    ensures RingNext(RingIndex(end, m, back), m) == if back == 1 then end else RingIndex(end, m, back - 1)
  {
    hide RingNext;
  }

  lemma RingInjective(end: nat, m: nat, a: nat, b: nat)
    requires end < m && 1 <= a < b <= m
    ensures RingIndex(end, m, a) != RingIndex(end, m, b)
  {}

  /** Only the alpha fields differ. */
  ghost predicate SameButAlpha(a: seq<IterationData>, b: seq<IterationData>) {
    |a| == |b| && forall j :: 0 <= j < |a| ==> a[j].s == b[j].s && a[j].y == b[j].y && a[j].ys == b[j].ys
  }

  /** The alphas that the first loop leaves behind, for the newest i corrections. */
  ghost predicate AlphasStored(lm: seq<IterationData>, end: nat, ps: seq<Pair>, i: nat, v: Vec)
    requires end < |lm| && i <= |ps| <= |lm| && AllValid(ps, |v|)
  {
    forall b :: 1 <= b <= i ==>
      lm[RingIndex(end, |lm|, b)].alpha == Alpha(ps[|ps| - b], Descend(ps, b - 1, v))
  }

  lemma StoreAlpha(lm: seq<IterationData>, end: nat, ps: seq<Pair>, i: nat, v: Vec, alpha: real)
    requires end < |lm| && i < |ps| <= |lm| && AllValid(ps, |v|)
    requires AlphasStored(lm, end, ps, i, v) && alpha == Alpha(ps[|ps| - (i + 1)], Descend(ps, i, v))
    ensures var j := RingIndex(end, |lm|, i + 1);
            AlphasStored(lm[j := lm[j].(alpha := alpha)], end, ps, i + 1, v)
  {
    hide Alpha, Descend;
    forall b | 1 <= b <= i
      ensures RingIndex(end, |lm|, b) != RingIndex(end, |lm|, i + 1)
    {
      RingInjective(end, |lm|, b, i + 1);
    }
  }

  lemma NothingStored(lm: seq<IterationData>, end: nat, ps: seq<Pair>, v: Vec)
    requires end < |lm| && |ps| <= |lm| && AllValid(ps, |v|)
    ensures AlphasStored(lm, end, ps, 0, v) && Descend(ps, 0, v) == v
  {}

  lemma DescendStep(ps: seq<Pair>, i: nat, v: Vec, it: IterationData, alpha: real)
    requires i < |ps| && AllValid(ps, |v|) && ps[|ps| - (i + 1)] == Pair(it.s, it.y)
    requires alpha == Alpha(Pair(it.s, it.y), Descend(ps, i, v))
    ensures Axpy(Descend(ps, i, v), -alpha, it.y) == Descend(ps, i + 1, v)
  {
    hide Alpha, Axpy;
  }

  /** The first loop: newest to oldest, taking y out of d. */
  method FirstLoop(d: array<real>, lm: array<IterationData>, end: nat, bound: nat, ghost ps: seq<Pair>)
    returns (j: nat)
    requires RingValid(lm[..], end, bound, d.Length) && ps == RingPairs(lm[..], end, bound)
    requires AllValid(ps, d.Length)
    modifies d, lm
    ensures SameButAlpha(lm[..], old(lm[..]))
    ensures d[..] == Descend(ps, bound, old(d[..]))
    ensures AlphasStored(lm[..], end, ps, bound, old(d[..]))
    ensures j == if bound == 0 then end else RingIndex(end, lm.Length, bound)
  {
    hide Alpha, Dot, Mul, Axpy, Quot, RingPrev, Descend, Down, RingPairs, AlphasStored;
    NothingStored(lm[..], end, ps, d[..]);
    var m := lm.Length;
    ghost var v, lm0 := d[..], lm[..];
    j := end;
    var i := 0;
    while i < bound
      invariant 0 <= i <= bound && j == if i == 0 then end else RingIndex(end, m, i)
      invariant SameButAlpha(lm[..], lm0)
      invariant d[..] == Descend(ps, i, v)
      invariant AlphasStored(lm[..], end, ps, i, v)
    {
      RingStepDown(end, m, i, j);
      j := RingPrev(j, m);
      var it := lm[j];
      assert ps[bound - (i + 1)] == Pair(it.s, it.y);
      var alpha := VecDot(it.s, d[..]);
      alpha := Quot(alpha, it.ys);
      AlphaIs(it, d[..], alpha);
      DescendStep(ps, i, v, it, alpha);
      StoreAlpha(lm[..], end, ps, i, v, alpha);
      lm[j] := it.(alpha := alpha);
      VecAdd(d, it.y, -alpha);
      i := i + 1;
    }
  }

  /** The second loop: oldest to newest, adding s to d. */
  method SecondLoop(d: array<real>, lm: array<IterationData>, end: nat, bound: nat, j0: nat,
                    ghost ps: seq<Pair>, ghost scale: real, ghost v: Vec)
    requires RingValid(lm[..], end, bound, d.Length) && ps == RingPairs(lm[..], end, bound)
    requires |v| == d.Length && AllValid(ps, d.Length)
    requires AlphasStored(lm[..], end, ps, bound, v)
    requires j0 == if bound == 0 then end else RingIndex(end, lm.Length, bound)
    requires d[..] == Scale(scale, Descend(ps, bound, v))
    modifies d
    ensures d[..] == ApplyH(ps, scale, v)
  {
    hide Alpha, Beta, Dot, Mul, Axpy, Quot, RingNext, Descend, ApplyH, RingPairs;
    ApplyNone(scale, Descend(ps, bound, v));
    NothingStored(lm[..], end, ps, v);
    var m := lm.Length;
    var j, i := j0, 0;
    assert ps[..0] == [];
    while i < bound
      invariant 0 <= i <= bound && j == if i == bound then end else RingIndex(end, m, bound - i)
      invariant d[..] == ApplyH(ps[..i], scale, Descend(ps, bound - i, v))
    {
      var it := lm[j];
      assert ps[i] == Pair(it.s, it.y);
      ghost var r := d[..];
      var beta := VecDot(it.y, d[..]);
      beta := Quot(beta, it.ys);
      BetaIs(it, r, beta);
      VecAdd(d, it.s, it.alpha - beta);
      ApplyStep(ps, i, scale, v, it, beta, r);
      RingStepUp(end, m, bound - i);
      j := RingNext(j, m);
      i := i + 1;
    }
    assert ps[..bound] == ps;
  }

  lemma ApplyNone(scale: real, r: Vec)
    ensures ApplyH([], scale, r) == Scale(scale, r)
  {}

  lemma ApplyStep(ps: seq<Pair>, i: nat, scale: real, v: Vec, it: IterationData, beta: real, r: Vec)
    requires i < |ps| && AllValid(ps, |v|) && ps[i] == Pair(it.s, it.y)
    requires r == ApplyH(ps[..i], scale, Descend(ps, |ps| - i, v)) && beta == Beta(ps[i], r)
    requires it.alpha == Alpha(ps[i], Descend(ps, |ps| - i - 1, v))
    ensures Axpy(r, it.alpha - beta, it.s) == ApplyH(ps[..i+1], scale, Descend(ps, |ps| - i - 1, v))
  {
    hide Alpha, Beta, Dot, Mul, Axpy;
    assert ps[..i+1][..i] == ps[..i];
  }

  /** From d, the newest bound corrections and the scale, compute H d in place. */
  method ApplyTwoLoop(d: array<real>, lm: array<IterationData>, end: nat, bound: nat, scale: real)
    requires RingValid(lm[..], end, bound, d.Length)
    modifies d, lm
    ensures var ps := RingPairs(old(lm[..]), end, bound);
      AllValid(ps, d.Length) && d[..] == MatVec(InverseHessian(ps, scale, d.Length), old(d[..]))
    ensures SameButAlpha(lm[..], old(lm[..]))
  {
    RingPairsValid(lm[..], end, bound, d.Length);
    hide InverseHessian, MatVec, Descend, ApplyH, AlphasStored;
    ghost var ps, v := RingPairs(lm[..], end, bound), d[..];
    var j := FirstLoop(d, lm, end, bound, ps);
    VecScale(d, scale);
    assert RingPairs(lm[..], end, bound) == ps;
    SecondLoop(d, lm, end, bound, j, ps, scale, v);
    ApplyIsMatrix(ps, scale, v);
  }

  lemma AlphaIs(it: IterationData, d: Vec, a: real)
    requires Pair(it.s, it.y).Valid(|d|) && it.ys == Dot(it.y, it.s) && a == Quot(Dot(it.s, d), it.ys)
    ensures a == Alpha(Pair(it.s, it.y), d)
  {}

  lemma BetaIs(it: IterationData, d: Vec, b: real)
    requires Pair(it.s, it.y).Valid(|d|) && it.ys == Dot(it.y, it.s) && b == Quot(Dot(it.y, d), it.ys)
    ensures b == Beta(Pair(it.s, it.y), d)
  {}
}
