/** The vector kernels of src/arithmetic_ansi.h, one loop each. Arguments that a kernel only reads
    are passed as sequences; the one it writes is an array. */
module Kernels {
  import opened Interpolation
  import opened Vectors

  lemma DotStep(x: Vec, y: Vec, i: nat)
    requires |x| == |y| && i < |x|
    ensures Dot(x[..i+1], y[..i+1]) == Dot(x[..i], y[..i]) + Mul(x[i], y[i])
  {
    assert x[..i+1][..i] == x[..i] && y[..i+1][..i] == y[..i];
  }

  method VecCpy(y: array<real>, x: Vec)
    requires y.Length == |x|
    modifies y
    ensures y[..] == x
  {
    var i := 0;
    while i < y.Length
      invariant 0 <= i <= y.Length
      invariant y[..i] == x[..i]
    {
      y[i] := x[i];
      i := i + 1;
    }
  }

  method VecNCpy(y: array<real>, x: Vec)
    requires y.Length == |x|
    modifies y
    ensures y[..] == Neg(x)
  {
    var i := 0;
    while i < y.Length
      invariant 0 <= i <= y.Length
      invariant forall k :: 0 <= k < i ==> y[k] == -x[k]
    {
      y[i] := -x[i];
      i := i + 1;
    }
  }

  method VecAdd(y: array<real>, x: Vec, c: real)
    requires y.Length == |x|
    modifies y
    ensures y[..] == Axpy(old(y[..]), c, x)
  {
    var i := 0;
    while i < y.Length
      invariant 0 <= i <= y.Length
      invariant forall k :: 0 <= k < i ==> y[k] == old(y[k]) + Mul(c, x[k])
      invariant forall k :: i <= k < y.Length ==> y[k] == old(y[k])
    {
      y[i] := y[i] + c * x[i];
      i := i + 1;
    }
  }

  method VecDiff(z: array<real>, x: Vec, y: Vec)
    requires z.Length == |x| == |y|
    modifies z
    ensures z[..] == Sub(x, y)
  {
    var i := 0;
    while i < z.Length
      invariant 0 <= i <= z.Length
      invariant forall k :: 0 <= k < i ==> z[k] == x[k] - y[k]
    {
      z[i] := x[i] - y[i];
      i := i + 1;
    }
  }

  method VecScale(y: array<real>, c: real)
    modifies y
    ensures y[..] == Scale(c, old(y[..]))
  {
    var i := 0;
    while i < y.Length
      invariant 0 <= i <= y.Length
      invariant forall k :: 0 <= k < i ==> y[k] == Mul(c, old(y[k]))
      invariant forall k :: i <= k < y.Length ==> y[k] == old(y[k])
    {
      y[i] := y[i] * c;
      i := i + 1;
    }
  }

  method VecDot(x: Vec, y: Vec) returns (s: real)
    requires |x| == |y|
    ensures s == Dot(x, y)
  {
    s := 0.0;
    var i := 0;
    while i < |x|
      invariant 0 <= i <= |x|
      invariant s == Dot(x[..i], y[..i])
    {
      DotStep(x, y, i);
      s := s + x[i] * y[i];
      i := i + 1;
    }
    assert x[..|x|] == x && y[..|x|] == y;
  }

  function Norm(x: Vec, sqrt: real -> real): real {
    sqrt(Dot(x, x))
  }

  method Vec2Norm(x: Vec, sqrt: real -> real) returns (s: real)
    ensures s == Norm(x, sqrt)
  {
    s := VecDot(x, x);
    s := sqrt(s);
  }

  method Vec2NormInv(x: Vec, sqrt: real -> real) returns (s: real)
    ensures Norm(x, sqrt) != 0.0 ==> s == 1.0 / Norm(x, sqrt)
  {
    s := Vec2Norm(x, sqrt);
    s := Quot(1.0, s);
  }

  lemma NormFacts(x: Vec, sqrt: real -> real)
    requires IsSqrt(sqrt)
    ensures 0.0 <= Norm(x, sqrt) && Norm(x, sqrt) * Norm(x, sqrt) == Dot(x, x)
    ensures Norm(x, sqrt) == 0.0 <==> x == Zero(|x|)
  {
    DotSelf(x);
    SquareZero(Norm(x, sqrt));
  }
}

/** The unrolled kernels of src/arithmetic_sse_double.h: two-lane registers, four or eight elements
    a turn. Each meets the contract of the loop it replaces when the length is rounded up. */
module SseKernels {
  import opened Interpolation
  import opened Vectors
  import opened Kernels

  /** A 128-bit register holding two doubles. */
  datatype M128d = M128d(lo: real, hi: real) {
    function Plus(o: M128d): M128d { M128d(lo + o.lo, hi + o.hi) }
    function Minus(o: M128d): M128d { M128d(lo - o.lo, hi - o.hi) }
    function Times(o: M128d): M128d { M128d(Mul(lo, o.lo), Mul(hi, o.hi)) }
    /** _MM_SHUFFLE2(1, 1): both lanes take the high element. */
    function High(): M128d { M128d(hi, hi) }
  }

  function Load(x: Vec, i: nat): M128d
    requires i + 2 <= |x|
  {
    M128d(x[i], x[i + 1])
  }

  method Store(y: array<real>, i: nat, r: M128d)
    requires i + 2 <= y.Length
    modifies y
    ensures y[..] == old(y[..])[i := r.lo][i + 1 := r.hi]
  {
    y[i] := r.lo;
    y[i + 1] := r.hi;
  }

  method VecCpy(y: array<real>, x: Vec)
    requires y.Length == |x| && |x| % 8 == 0
    modifies y
    ensures y[..] == x
  {
    var i := 0;
    while i < y.Length
      invariant 0 <= i <= y.Length && i % 8 == 0
      invariant forall k :: 0 <= k < i ==> y[k] == x[k]
    {
      var r0, r1, r2, r3 := Load(x, i), Load(x, i + 2), Load(x, i + 4), Load(x, i + 6);
      Store(y, i, r0); Store(y, i + 2, r1); Store(y, i + 4, r2); Store(y, i + 6, r3);
      i := i + 8;
    }
  }

  method VecNCpy(y: array<real>, x: Vec)
    requires y.Length == |x| && |x| % 8 == 0
    modifies y
    ensures y[..] == Neg(x)
  {
    var i := 0;
    var zero := M128d(0.0, 0.0);
    while i < y.Length
      invariant 0 <= i <= y.Length && i % 8 == 0
      invariant forall k :: 0 <= k < i ==> y[k] == -x[k]
    {
      var r0, r1 := zero.Minus(Load(x, i)), zero.Minus(Load(x, i + 2));
      var r2, r3 := zero.Minus(Load(x, i + 4)), zero.Minus(Load(x, i + 6));
      Store(y, i, r0); Store(y, i + 2, r1); Store(y, i + 4, r2); Store(y, i + 6, r3);
      i := i + 8;
    }
  }

  method VecAdd(y: array<real>, x: Vec, c: real)
    requires y.Length == |x| && |x| % 4 == 0
    modifies y
    ensures y[..] == Axpy(old(y[..]), c, x)
  {
    hide Mul;
    var i := 0;
    var r7 := M128d(c, c);
    while i < y.Length
      invariant 0 <= i <= y.Length && i % 4 == 0
      invariant forall k :: 0 <= k < i ==> y[k] == old(y[k]) + Mul(c, x[k])
      invariant forall k :: i <= k < y.Length ==> y[k] == old(y[k])
    {
      var r0, r1 := Load(x, i), Load(x, i + 2);
      var r2, r3 := Load(y[..], i), Load(y[..], i + 2);
      MulFacts(c, x[i], 0.0); MulFacts(c, x[i + 1], 0.0); MulFacts(c, x[i + 2], 0.0); MulFacts(c, x[i + 3], 0.0);
      r0, r1 := r0.Times(r7), r1.Times(r7);
      r2, r3 := r2.Plus(r0), r3.Plus(r1);
      Store(y, i, r2); Store(y, i + 2, r3);
      i := i + 4;
    }
  }

  method VecDiff(z: array<real>, x: Vec, y: Vec)
    requires z.Length == |x| == |y| && |x| % 8 == 0
    modifies z
    ensures z[..] == Sub(x, y)
  {
    var i := 0;
    while i < z.Length
      invariant 0 <= i <= z.Length && i % 8 == 0
      invariant forall k :: 0 <= k < i ==> z[k] == x[k] - y[k]
    {
      var r0, r1 := Load(x, i).Minus(Load(y, i)), Load(x, i + 2).Minus(Load(y, i + 2));
      var r2, r3 := Load(x, i + 4).Minus(Load(y, i + 4)), Load(x, i + 6).Minus(Load(y, i + 6));
      Store(z, i, r0); Store(z, i + 2, r1); Store(z, i + 4, r2); Store(z, i + 6, r3);
      i := i + 8;
    }
  }

  method VecScale(y: array<real>, c: real)
    requires y.Length % 4 == 0
    modifies y
    ensures y[..] == Scale(c, old(y[..]))
  {
    hide Mul;
    var i := 0;
    var r7 := M128d(c, c);
    while i < y.Length
      invariant 0 <= i <= y.Length && i % 4 == 0
      invariant forall k :: 0 <= k < i ==> y[k] == Mul(c, old(y[k]))
      invariant forall k :: i <= k < y.Length ==> y[k] == old(y[k])
    {
      var r0, r1 := Load(y[..], i), Load(y[..], i + 2);
      MulFacts(c, y[i], 0.0); MulFacts(c, y[i + 1], 0.0); MulFacts(c, y[i + 2], 0.0); MulFacts(c, y[i + 3], 0.0);
      r0, r1 := r0.Times(r7), r1.Times(r7);
      Store(y, i, r0); Store(y, i + 2, r1);
      i := i + 4;
    }
  }

  /** Four running sums and a horizontal add give the dot product. */
  method VecDot(x: Vec, y: Vec) returns (s: real)
    requires |x| == |y| && |x| % 4 == 0
    ensures s == Dot(x, y)
  {
    hide Mul;
    var r0, r1 := M128d(0.0, 0.0), M128d(0.0, 0.0);
    var i := 0;
    while i < |x|
      invariant 0 <= i <= |x| && i % 4 == 0
      invariant r0.lo + r0.hi + r1.lo + r1.hi == Dot(x[..i], y[..i])
    {
      var r2, r3, r4, r5 := Load(x, i), Load(x, i + 2), Load(y, i), Load(y, i + 2);
      r2, r3 := r2.Times(r4), r3.Times(r5);
      r0, r1 := r0.Plus(r2), r1.Plus(r3);
      DotStep(x, y, i); DotStep(x, y, i + 1); DotStep(x, y, i + 2); DotStep(x, y, i + 3);
      i := i + 4;
    }
    assert x[..|x|] == x && y[..|x|] == y;
    r0 := r0.Plus(r1);
    r1 := r0.High();
    r0 := r0.Plus(r1);
    s := r0.lo;
  }

  /** The loop shared by the two norms: each load is multiplied with itself. */
  method SquareSums(x: Vec) returns (r0: M128d, r1: M128d)
    requires |x| % 4 == 0
    ensures r0.lo + r0.hi + r1.lo + r1.hi == Dot(x, x)
  {
    hide Mul;
    r0, r1 := M128d(0.0, 0.0), M128d(0.0, 0.0);
    var i := 0;
    while i < |x|
      invariant 0 <= i <= |x| && i % 4 == 0
      invariant r0.lo + r0.hi + r1.lo + r1.hi == Dot(x[..i], x[..i])
    {
      var r2, r3 := Load(x, i), Load(x, i + 2);
      var r4, r5 := r2, r3;
      r2, r3 := r2.Times(r4), r3.Times(r5);
      r0, r1 := r0.Plus(r2), r1.Plus(r3);
      DotStep(x, x, i); DotStep(x, x, i + 1); DotStep(x, x, i + 2); DotStep(x, x, i + 3);
      i := i + 4;
    }
    assert x[..|x|] == x;
  }

  method Vec2Norm(x: Vec, sqrt: real -> real) returns (s: real)
    requires |x| % 4 == 0
    ensures s == Norm(x, sqrt)
  {
    var r0, r1 := SquareSums(x);
    r0 := r0.Plus(r1);
    r1 := r0.High();
    r0 := r0.Plus(r1);
    r0 := M128d(sqrt(r0.lo), sqrt(r0.hi));
    s := r0.lo;
  }

  /** The quotient in the unused lane is not modelled. */
  method Vec2NormInv(x: Vec, sqrt: real -> real) returns (s: real)
    requires |x| % 4 == 0
    ensures Norm(x, sqrt) != 0.0 ==> s == 1.0 / Norm(x, sqrt)
  {
    var r0, r1 := SquareSums(x);
    var r2 := M128d(1.0, 1.0);
    r0 := r0.Plus(r1);
    r1 := r0.High();
    r0 := r0.Plus(r1);
    r0 := M128d(sqrt(r0.lo), sqrt(r0.hi));
    s := Quot(r2.lo, r0.lo);
  }
}

/** Rounding the number of variables up to a multiple of eight (round_out_variables of src/lbfgs.c):
    lanes beyond the true length that hold zero contribute nothing and stay zero. */
module Padding {
  import opened Interpolation
  import opened Vectors

  function RoundOutVariables(n: nat): (r: nat)
    ensures n <= r < n + 8 && r % 8 == 0
  {
    (n + 7) / 8 * 8
  }

  /** The lanes from n on hold zero. */
  predicate ZeroTail(x: Vec, n: nat) {
    forall i :: n <= i < |x| ==> x[i] == 0.0
  }

  /** A dot product over the padded length is the dot product over the true one. */
  lemma {:induction false} DotPadded(x: Vec, y: Vec, n: nat)
    requires |x| == |y| && n <= |x| && ZeroTail(x, n)
    ensures Dot(x, y) == Dot(x[..n], y[..n])
  {
    var k := |x|;
    if k == n {
      assert x[..n] == x && y[..n] == y;
    } else {
      DotPadded(x[..k-1], y[..k-1], n);
      assert x[..k-1][..n] == x[..n] && y[..k-1][..n] == y[..n];
    }
  }

  /** Every kernel result restricted to the true length is the result on the true vectors, and the
      padding of the result is zero when the padding of the arguments is. */
  lemma KernelsPadded(x: Vec, y: Vec, c: real, n: nat)
    requires |x| == |y| && n <= |x| && ZeroTail(x, n) && ZeroTail(y, n)
    ensures ZeroTail(Axpy(y, c, x), n) && Axpy(y, c, x)[..n] == Axpy(y[..n], c, x[..n])
    ensures ZeroTail(Sub(x, y), n) && Sub(x, y)[..n] == Sub(x[..n], y[..n])
    ensures ZeroTail(Scale(c, x), n) && Scale(c, x)[..n] == Scale(c, x[..n])
    ensures ZeroTail(Neg(x), n) && Neg(x)[..n] == Neg(x[..n])
  {
    assert Mul(c, 0.0) == 0.0;
    hide Mul;
  }
}
