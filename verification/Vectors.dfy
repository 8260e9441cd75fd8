/** Vectors and matrices over exact reals: the mathematics behind the vector kernels. */
module Vectors {
  import opened Interpolation

  type Vec = seq<real>

  /** Products get a name, as quotients do, so that proofs about sequences can treat them as opaque terms. */
  function Mul(a: real, b: real): real {
    a * b
  }

  /** x^k */
  function Pow(x: real, k: nat): real {
    if k == 0 then 1.0 else Mul(x, Pow(x, k - 1))
  }

  function Dot(x: Vec, y: Vec): real
    requires |x| == |y|
  {
    if |x| == 0 then 0.0
    else Dot(x[..|x|-1], y[..|y|-1]) + Mul(x[|x|-1], y[|y|-1])
  }

  function Zero(n: nat): Vec {
    seq(n, i => 0.0)
  }

  /** y + c x */
  function Axpy(y: Vec, c: real, x: Vec): (r: Vec)
    requires |x| == |y|
    ensures |r| == |y| && forall i :: 0 <= i < |y| ==> r[i] == y[i] + Mul(c, x[i])
  {
    seq(|y|, i requires 0 <= i < |y| => y[i] + Mul(c, x[i]))
  }

  function Sub(x: Vec, y: Vec): (r: Vec)
    requires |x| == |y|
    ensures |r| == |x| && forall i :: 0 <= i < |x| ==> r[i] == x[i] - y[i]
  {
    seq(|x|, i requires 0 <= i < |x| => x[i] - y[i])
  }

  function Scale(c: real, x: Vec): (r: Vec)
    ensures |r| == |x| && forall i :: 0 <= i < |x| ==> r[i] == Mul(c, x[i])
  {
    seq(|x|, i requires 0 <= i < |x| => Mul(c, x[i]))
  }

  function Neg(x: Vec): (r: Vec)
    ensures |r| == |x| && forall i :: 0 <= i < |x| ==> r[i] == -x[i]
  {
    seq(|x|, i requires 0 <= i < |x| => -x[i])
  }

  // ----- the dot product is bilinear, symmetric and positive -----

  lemma MulFacts(a: real, b: real, c: real)
    ensures Mul(a, b) == Mul(b, a)
    ensures Mul(a + b, c) == Mul(a, c) + Mul(b, c)
    ensures Mul(c, a + b) == Mul(c, a) + Mul(c, b)
    ensures Mul(Mul(a, b), c) == Mul(a, Mul(b, c))
  {}

  lemma {:induction false} DotSymmetric(x: Vec, y: Vec)
    requires |x| == |y|
    ensures Dot(x, y) == Dot(y, x)
  {
    if |x| > 0 { DotSymmetric(x[..|x|-1], y[..|y|-1]); }
  }

  lemma {:induction false} DotAxpy(y: Vec, c: real, x: Vec, z: Vec)
    requires |x| == |y| == |z|
    ensures Dot(Axpy(y, c, x), z) == Dot(y, z) + Mul(c, Dot(x, z))
  {
    hide Mul;
    var n := |x|;
    if n == 0 {
      MulFacts(c, 0.0, 0.0);
      assert Mul(c, 0.0) == 0.0 by { MulFacts(0.0, 0.0, c); }
    } else {
      DotAxpy(y[..n-1], c, x[..n-1], z[..n-1]);
      assert Axpy(y, c, x)[..n-1] == Axpy(y[..n-1], c, x[..n-1]);
      MulFacts(y[n-1], Mul(c, x[n-1]), z[n-1]);
      MulFacts(c, x[n-1], z[n-1]);
      MulFacts(Dot(x[..n-1], z[..n-1]), Mul(x[n-1], z[n-1]), c);
    }
  }

  lemma AxpyFromZero(c: real, x: Vec)
    ensures Axpy(Zero(|x|), c, x) == Scale(c, x)
  {
    hide Mul;
  }

  lemma {:induction false} DotZero(n: nat, z: Vec)
    requires |z| == n
    ensures Dot(Zero(n), z) == 0.0
  {
    if n > 0 {
      assert Zero(n)[..n-1] == Zero(n-1);
      DotZero(n - 1, z[..n-1]);
    }
  }

  lemma DotScale(c: real, x: Vec, z: Vec)
    requires |x| == |z|
    ensures Dot(Scale(c, x), z) == Mul(c, Dot(x, z))
  {
    AxpyFromZero(c, x);
    DotAxpy(Zero(|x|), c, x, z);
    DotZero(|x|, z);
  }

  lemma NegIsScale(x: Vec)
    ensures Neg(x) == Scale(-1.0, x)
  {}

  lemma SubIsAxpy(x: Vec, y: Vec)
    requires |x| == |y|
    ensures Sub(x, y) == Axpy(x, -1.0, y)
  {}

  lemma DotNeg(x: Vec, z: Vec)
    requires |x| == |z|
    ensures Dot(Neg(x), z) == -Dot(x, z)
  {
    NegIsScale(x);
    DotScale(-1.0, x, z);
  }

  lemma DotSub(x: Vec, y: Vec, z: Vec)
    requires |x| == |y| == |z|
    ensures Dot(Sub(x, y), z) == Dot(x, z) - Dot(y, z)
  {
    SubIsAxpy(x, y);
    DotAxpy(x, -1.0, y, z);
  }

  lemma SquareZero(a: real)
    ensures 0.0 <= Mul(a, a) && (Mul(a, a) == 0.0 <==> a == 0.0)
  {
    if 0.0 < a { var p := MulPos(a, a); } else if a < 0.0 { var p := MulPos(-a, -a); }
  }

  lemma {:induction false} DotSelf(x: Vec)
    ensures 0.0 <= Dot(x, x)
    ensures Dot(x, x) == 0.0 <==> x == Zero(|x|)
  {
    hide Mul;
    var n := |x|;
    if n > 0 {
      DotSelf(x[..n-1]);
      SquareZero(x[n-1]);
      assert Zero(n)[..n-1] == Zero(n-1);
      assert x == x[..n-1] + [x[n-1]];
      assert Zero(n) == Zero(n-1) + [0.0];
    }
  }

  // ----- matrices, as sequences of rows -----

  type Mat = seq<Vec>

  predicate Square(a: Mat, n: nat) {
    |a| == n && forall i :: 0 <= i < n ==> |a[i]| == n
  }

  function MatVec(a: Mat, v: Vec): (r: Vec)
    requires Square(a, |v|)
    ensures |r| == |v|
  {
    seq(|v|, i requires 0 <= i < |v| => Dot(a[i], v))
  }

  /** The combination of the first |w| rows of b with weights w. */
  function RowComb(w: Vec, b: Mat, n: nat): (r: Vec)
    requires |w| <= |b| && forall i :: 0 <= i < |b| ==> |b[i]| == n
    ensures |r| == n
  {
    if |w| == 0 then Zero(n)
    else Axpy(RowComb(w[..|w|-1], b, n), w[|w|-1], b[|w|-1])
  }

  function MatMul(a: Mat, b: Mat, n: nat): (r: Mat)
    requires Square(a, n) && Square(b, n)
    ensures Square(r, n)
  {
    seq(n, i requires 0 <= i < n => RowComb(a[i], b, n))
  }

  function MatAxpy(a: Mat, c: real, b: Mat, n: nat): (r: Mat)
    requires Square(a, n) && Square(b, n)
    ensures Square(r, n)
  {
    seq(n, i requires 0 <= i < n => Axpy(a[i], c, b[i]))
  }

  function Transpose(a: Mat, n: nat): (r: Mat)
    requires Square(a, n)
    ensures Square(r, n)
  {
    seq(n, i requires 0 <= i < n => seq(n, j requires 0 <= j < n => a[j][i]))
  }

  function ScaledIdentity(c: real, n: nat): (r: Mat)
    ensures Square(r, n)
  {
    seq(n, i requires 0 <= i < n => seq(n, j => if i == j then c else 0.0))
  }

  /** The matrix x y^T. */
  function Outer(x: Vec, y: Vec): (r: Mat)
    requires |x| == |y|
    ensures Square(r, |x|)
  {
    seq(|x|, i requires 0 <= i < |x| => Scale(x[i], y))
  }

  lemma {:induction false} DotRowComb(w: Vec, b: Mat, v: Vec)
    requires |w| <= |b| == |v| && Square(b, |v|)
    ensures Dot(RowComb(w, b, |v|), v) == Dot(w, MatVec(b, v)[..|w|])
  {
    hide Mul;
    var k := |w|;
    if k == 0 {
      DotZero(|v|, v);
    } else {
      DotRowComb(w[..k-1], b, v);
      DotAxpy(RowComb(w[..k-1], b, |v|), w[k-1], b[k-1], v);
      assert MatVec(b, v)[..k][..k-1] == MatVec(b, v)[..k-1];
    }
  }

  /** Matrix product is composition. */
  lemma MatMulVec(a: Mat, b: Mat, v: Vec)
    requires Square(a, |v|) && Square(b, |v|)
    ensures MatVec(MatMul(a, b, |v|), v) == MatVec(a, MatVec(b, v))
  {
    hide Mul;
    var n := |v|;
    forall i | 0 <= i < n
      ensures MatVec(MatMul(a, b, n), v)[i] == MatVec(a, MatVec(b, v))[i]
    {
      DotRowComb(a[i], b, v);
      assert MatVec(b, v)[..n] == MatVec(b, v);
    }
  }

  lemma MatAxpyVec(a: Mat, c: real, b: Mat, v: Vec)
    requires Square(a, |v|) && Square(b, |v|)
    ensures MatVec(MatAxpy(a, c, b, |v|), v) == Axpy(MatVec(a, v), c, MatVec(b, v))
  {
    hide Mul;
    forall i | 0 <= i < |v|
      ensures MatVec(MatAxpy(a, c, b, |v|), v)[i] == Axpy(MatVec(a, v), c, MatVec(b, v))[i]
    {
      DotAxpy(a[i], c, b[i], v);
    }
  }

  lemma OuterVec(x: Vec, y: Vec, v: Vec)
    requires |x| == |y| == |v|
    ensures MatVec(Outer(x, y), v) == Scale(Dot(y, v), x)
  {
    hide Mul;
    forall i | 0 <= i < |v|
      ensures MatVec(Outer(x, y), v)[i] == Scale(Dot(y, v), x)[i]
    {
      DotScale(x[i], y, v);
      MulFacts(x[i], Dot(y, v), 0.0);
    }
  }

  lemma {:induction false} DotUnit(c: real, i: nat, v: Vec, row: Vec)
    requires |row| == |v|
    requires forall j :: 0 <= j < |row| ==> row[j] == if i == j then c else 0.0
    ensures Dot(row, v) == if i < |v| then Mul(c, v[i]) else 0.0
  {
    var n := |v|;
    if n > 0 { DotUnit(c, i, v[..n-1], row[..n-1]); }
  }

  lemma ScaledIdentityVec(c: real, v: Vec)
    ensures MatVec(ScaledIdentity(c, |v|), v) == Scale(c, v)
  {
    hide Mul;
    forall i | 0 <= i < |v|
      ensures MatVec(ScaledIdentity(c, |v|), v)[i] == Scale(c, v)[i]
    {
      DotUnit(c, i, v, ScaledIdentity(c, |v|)[i]);
    }
  }
}
