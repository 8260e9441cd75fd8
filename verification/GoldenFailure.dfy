/** When golden section search (src/gss.c) rejects a strictly unimodal function: a condition on the
    function at points known before the call. */
module GoldenFailure {
  import opened Interpolation
  import opened GoldenSection

  // ----- the two sequences of points that can be too high -----

  function Power(k: nat): real {
    if k == 0 then 1.0 else (1.0 - RESPHI) * Power(k - 1)
  }

  /** Towards the right end: the first probe and its successors while the values fall; the left end
      comes before them. */
  function RightPoint(lo: real, hi: real, j: int): real
    requires -1 <= j
  {
    hi - Power(j + 1) * (hi - lo)
  }

  /** Towards the left end, starting from the same first probe. */
  function LeftPoint(lo: real, hi: real, j: nat): real {
    lo + RESPHI * Power(j) * (hi - lo)
  }

  /** The values fall strictly from the left end through the first n points towards the right. */
  ghost predicate FallsRight(f: real -> real, lo: real, hi: real, n: nat) {
    forall i: nat :: i < n ==> f(RightPoint(lo, hi, i)) < f(RightPoint(lo, hi, i - 1))
  }

  /** The first of these points whose value does not fall is not below the left end, and is reached
      while the bracket is wider than epsilon. */
  ghost predicate RejectedRight(f: real -> real, lo: real, hi: real, epsilon: real, j: nat) {
    && FallsRight(f, lo, hi, j) && f(RightPoint(lo, hi, j)) >= f(lo)
    && (j > 0 ==> epsilon < hi - RightPoint(lo, hi, j - 2))
  }

  /** Towards the left the search only goes when the second point to the right is no lower; the right
      end of its bracket is then that point, and later the last point but one. */
  function LeftEnd(lo: real, hi: real, j: nat): real {
    if j == 0 then RightPoint(lo, hi, 1) else LeftPoint(lo, hi, j - 1)
  }

  ghost predicate FallsLeft(f: real -> real, lo: real, hi: real, n: nat) {
    f(LeftPoint(lo, hi, 0)) <= f(RightPoint(lo, hi, 1))
    && forall i: nat :: 0 < i < n ==> f(LeftPoint(lo, hi, i)) < f(LeftPoint(lo, hi, i - 1))
  }

  ghost predicate RejectedLeft(f: real -> real, lo: real, hi: real, epsilon: real, j: nat) {
    && f(LeftPoint(lo, hi, j)) >= f(hi)
    && (j > 0 ==> FallsLeft(f, lo, hi, j) && epsilon < LeftEnd(lo, hi, j - 1) - lo)
  }

  /** The condition, from the lower of the two ends. */
  ghost predicate Rejected(f: real -> real, lo: real, hi: real, epsilon: real) {
    if f(lo) <= f(hi) then exists j: nat :: RejectedRight(f, lo, hi, epsilon, j)
    else exists j: nat :: RejectedLeft(f, lo, hi, epsilon, j)
  }

  // ----- geometry -----

  lemma RightNext(lo: real, hi: real, j: nat)
    ensures RightPoint(lo, hi, -1) == lo
    ensures SecondPoint(hi, RightPoint(lo, hi, j - 1)) == RightPoint(lo, hi, j)
  {}

  lemma LeftNext(lo: real, hi: real, j: nat)
    ensures SecondPoint(lo, LeftPoint(lo, hi, j)) == LeftPoint(lo, hi, j + 1)
    ensures LeftPoint(lo, hi, 0) == RightPoint(lo, hi, 0)
  {}

  // ----- brackets that can no longer fail -----

  /** Both ends are at or below the lower original end, and the interior point is a valid one. */
  predicate Settled(f: real -> real, lo: real, hi: real, t: Bracket) {
    Proper(lo, hi, t) && t.a != t.b && f(t.a) <= Min2(f(lo), f(hi)) && f(t.b) <= Min2(f(lo), f(hi))
  }

  /** Strictly between two points the value is below the higher of theirs. */
  lemma BelowHigher(f: real -> real, lo: real, hi: real, m: real, u: real, z: real, v: real)
    requires StrictlyUnimodal(f, lo, hi, m) && lo <= u <= hi && lo <= v <= hi && Between(u, z, v)
    ensures f(z) < Max2(f(u), f(v))
  {
    var l, h := Min2(u, v), Max2(u, v);
    if m <= z { Slopes(f, lo, hi, m, z, h); } else { Slopes(f, lo, hi, m, l, z); }
  }

  lemma SettledStays(f: real -> real, lo: real, hi: real, m: real, t: Bracket)
    requires StrictlyUnimodal(f, lo, hi, m) && Settled(f, lo, hi, t)
    ensures !High(f, lo, hi, t.Probe()) && Settled(f, lo, hi, Turn(f, t))
  {
    TurnProper(f, lo, hi, t);
    hide StrictlyUnimodal, Golden, SecondPoint;
    BelowHigher(f, lo, hi, m, t.a, t.c, t.b);
    BelowHigher(f, lo, hi, m, t.c, t.Probe(), t.b);
  }

  lemma {:induction false} SettledForever(f: real -> real, lo: real, hi: real, m: real, j: nat, k: nat)
    requires StrictlyUnimodal(f, lo, hi, m) && j <= k && Settled(f, lo, hi, After(f, lo, hi, j))
    ensures Settled(f, lo, hi, After(f, lo, hi, k)) && !High(f, lo, hi, After(f, lo, hi, k).Probe())
    decreases k - j
  {
    hide StrictlyUnimodal, Settled, Turn;
    if j == k {
      SettledStays(f, lo, hi, m, After(f, lo, hi, k));
    } else {
      SettledForever(f, lo, hi, m, j, k - 1);
      SettledStays(f, lo, hi, m, After(f, lo, hi, k - 1));
      SettledStays(f, lo, hi, m, After(f, lo, hi, k));
    }
  }

  // ----- the path to the right -----

  /** While the values fall the bracket follows the points to the right. */
  lemma {:induction false} RightPath(f: real -> real, lo: real, hi: real, k: nat)
    requires forall i: nat :: 0 < i <= k ==> f(RightPoint(lo, hi, i)) < f(RightPoint(lo, hi, i - 1))
    ensures After(f, lo, hi, k) == Bracket(RightPoint(lo, hi, k - 1), hi, RightPoint(lo, hi, k))
  {
    hide RightPoint;
    RightNext(lo, hi, k);
    if k == 0 {
      RightFirst(lo, hi);
    } else {
      RightPath(f, lo, hi, k - 1);
      RightNext(lo, hi, k - 1);
    }
  }

  lemma RightFirst(lo: real, hi: real)
    ensures RightPoint(lo, hi, 0) == lo + RESPHI * (hi - lo) && RightPoint(lo, hi, -1) == lo
  {
    assert Power(1) == (1.0 - RESPHI) * Power(0);
  }

  lemma {:induction false} PowerRange(k: nat)
    ensures 0.0 < Power(k) <= 1.0
  {
    if k > 0 { PowerRange(k - 1); }
  }

  /** The points approach the right end from the left one. */
  lemma RightOrder(lo: real, hi: real, j: int)
    requires -1 <= j && lo < hi
    ensures lo <= RightPoint(lo, hi, j) < RightPoint(lo, hi, j + 1) < hi
  {
    PowerRange(j + 1);
    PowerRange(j + 2);
    var p := MulPos(Power(j + 2), hi - lo);
    var q := MulPos(Power(j + 1) - Power(j + 2), hi - lo);
    var r := MulNonNeg(1.0 - Power(j + 1), hi - lo);
  }

  /** All of them lie below the left end while the values fall. */
  lemma {:induction false} FallenBelow(f: real -> real, lo: real, hi: real, n: nat, i: int)
    requires FallsRight(f, lo, hi, n) && -1 <= i < n
    ensures f(RightPoint(lo, hi, i)) <= f(lo) && (0 <= i ==> f(RightPoint(lo, hi, i)) < f(lo))
    decreases i + 1
  {
    hide RightPoint;
    RightFirst(lo, hi);
    if 0 <= i { FallenBelow(f, lo, hi, n, i - 1); }
  }

  /** When the values stop falling below the left end, the bracket is settled. */
  lemma RightTurn(f: real -> real, lo: real, hi: real, i: nat)
    requires lo < hi && f(lo) <= f(hi) && 0 < i && FallsRight(f, lo, hi, i)
    requires f(RightPoint(lo, hi, i - 1)) <= f(RightPoint(lo, hi, i)) < f(lo)
    ensures Settled(f, lo, hi, After(f, lo, hi, i))
  {
    hide RightPoint, FallsRight, Proper, After, SecondPoint;
    RightOn(f, lo, hi, i);
    AfterNext(f, lo, hi, i - 1);
    AfterProper(f, lo, hi, i);
    FallenBelow(f, lo, hi, i, i - 2);
    RightOrder(lo, hi, i - 2);
    RightOrder(lo, hi, i - 1);
  }

  lemma RightOn(f: real -> real, lo: real, hi: real, i: nat)
    requires 0 < i && FallsRight(f, lo, hi, i)
    ensures After(f, lo, hi, i - 1) == Bracket(RightPoint(lo, hi, i - 2), hi, RightPoint(lo, hi, i - 1))
    ensures After(f, lo, hi, i - 1).Probe() == RightPoint(lo, hi, i)
  {
    hide RightPoint, After;
    RightPath(f, lo, hi, i - 1);
    RightNext(lo, hi, i);
  }

  /** The first of n points that does not fall, if there is one. */
  lemma {:induction false} FirstRise(f: real -> real, lo: real, hi: real, n: nat) returns (i: nat)
    ensures i <= n && FallsRight(f, lo, hi, i)
    ensures i < n ==> f(RightPoint(lo, hi, i)) >= f(RightPoint(lo, hi, i - 1))
  {
    hide RightPoint;
    if n == 0 {
      i := 0;
    } else {
      i := FirstRise(f, lo, hi, n - 1);
      if i == n - 1 && f(RightPoint(lo, hi, i)) < f(RightPoint(lo, hi, i - 1)) { i := n; }
    }
  }

  lemma RightFailure(f: real -> real, lo: real, hi: real, m: real, epsilon: real, k: nat) returns (i: nat)
    requires StrictlyUnimodal(f, lo, hi, m) && lo < hi && f(lo) <= f(hi) && FailsAt(f, lo, hi, epsilon, k)
    ensures RejectedRight(f, lo, hi, epsilon, i)
  {
    hide StrictlyUnimodal, RightPoint, After, SecondPoint, FallsRight, Settled;
    i := FirstRise(f, lo, hi, k + 1);
    RightFirst(lo, hi);
    if i > 0 { RightOn(f, lo, hi, i); }
    if f(RightPoint(lo, hi, i)) < f(lo) {
      if i <= k {
        RightTurn(f, lo, hi, i);
        SettledForever(f, lo, hi, m, i, k);
      }
      assert false;
    }
    if i > 0 {
      WidthsShrink(f, lo, hi, i - 1, k);
      RightOrder(lo, hi, i - 2);
    }
  }

  lemma RightRejection(f: real -> real, lo: real, hi: real, epsilon: real, j: nat)
    requires lo < hi && f(lo) <= f(hi) && RejectedRight(f, lo, hi, epsilon, j)
    ensures Fails(f, lo, hi, epsilon)
  {
    hide RightPoint, After, SecondPoint, FallsRight;
    if j == 0 {
      RightFirst(lo, hi);
      AfterStart(f, lo, hi);
    } else {
      RightOn(f, lo, hi, j);
      RightOrder(lo, hi, j - 2);
      LaterFails(f, lo, hi, epsilon, j - 1);
    }
  }

  // ----- the path to the left -----

  lemma LeftStep(lo: real, hi: real, j: nat)
    requires lo < hi
    ensures lo < LeftPoint(lo, hi, j + 1) < LeftPoint(lo, hi, j) < hi
  {
    PowerRange(j);
    var next := (1.0 - RESPHI) * Power(j);
    assert Power(j + 1) == next;
    hide Power;
    var p := MulPos(next, hi - lo);
    var q := MulPos(Power(j) - next, hi - lo);
    var r := MulNonNeg(1.0 - Power(j), hi - lo);
  }

  lemma LeftOrder(lo: real, hi: real, j: nat)
    requires lo < hi
    ensures lo < LeftPoint(lo, hi, j + 1) < LeftPoint(lo, hi, j) < LeftEnd(lo, hi, j) < hi
  {
    hide LeftPoint, RightPoint;
    LeftStep(lo, hi, j);
    if j == 0 {
      LeftNext(lo, hi, 0);
      RightOrder(lo, hi, 0);
    } else {
      LeftStep(lo, hi, j - 1);
    }
  }

  /** While the values fall towards the left the bracket follows the points there. */
  lemma {:induction false} LeftPath(f: real -> real, lo: real, hi: real, k: nat)
    requires 0 < k && FallsLeft(f, lo, hi, k)
    ensures After(f, lo, hi, k) == Bracket(LeftEnd(lo, hi, k - 1), lo, LeftPoint(lo, hi, k - 1))
    ensures After(f, lo, hi, k).Probe() == LeftPoint(lo, hi, k)
  {
    hide RightPoint, LeftPoint, After, SecondPoint;
    AfterNext(f, lo, hi, k - 1);
    LeftNext(lo, hi, k - 1);
    if k == 1 {
      AfterStart(f, lo, hi);
      RightFirst(lo, hi);
      RightNext(lo, hi, 1);
    } else {
      LeftPath(f, lo, hi, k - 1);
    }
  }

  lemma {:induction false} LeftBelow(f: real -> real, lo: real, hi: real, n: nat, i: nat)
    requires FallsLeft(f, lo, hi, n) && i < n && f(LeftPoint(lo, hi, 0)) < f(hi)
    ensures f(LeftPoint(lo, hi, i)) < f(hi)
  {
    hide LeftPoint, RightPoint;
    if i > 0 { LeftBelow(f, lo, hi, n, i - 1); }
  }

  /** The second point to the right never fails here, and if it is lower nothing does any more. */
  lemma FirstTurn(f: real -> real, lo: real, hi: real, m: real)
    requires StrictlyUnimodal(f, lo, hi, m) && lo < hi && f(hi) < f(lo) && f(LeftPoint(lo, hi, 0)) < f(hi)
    ensures f(RightPoint(lo, hi, 1)) < f(hi) && After(f, lo, hi, 0).Probe() == RightPoint(lo, hi, 1)
    ensures f(RightPoint(lo, hi, 1)) < f(LeftPoint(lo, hi, 0)) ==> Settled(f, lo, hi, After(f, lo, hi, 1))
  {
    hide StrictlyUnimodal, LeftPoint, RightPoint, After, Proper, SecondPoint;
    LeftNext(lo, hi, 0);
    RightFirst(lo, hi);
    RightNext(lo, hi, 1);
    RightOrder(lo, hi, 0);
    RightOrder(lo, hi, 1);
    AfterStart(f, lo, hi);
    AfterNext(f, lo, hi, 0);
    AfterProper(f, lo, hi, 1);
    BelowHigher(f, lo, hi, m, RightPoint(lo, hi, 0), RightPoint(lo, hi, 1), hi);
  }

  lemma LeftTurn(f: real -> real, lo: real, hi: real, m: real, j: nat)
    requires StrictlyUnimodal(f, lo, hi, m) && lo < hi && f(hi) < f(lo) && 0 < j && FallsLeft(f, lo, hi, j)
    requires f(LeftPoint(lo, hi, 0)) < f(hi) && f(LeftPoint(lo, hi, j - 1)) <= f(LeftPoint(lo, hi, j)) < f(hi)
    ensures Settled(f, lo, hi, After(f, lo, hi, j + 1))
  {
    hide StrictlyUnimodal, LeftPoint, RightPoint, After, Proper, SecondPoint, FallsLeft;
    LeftPath(f, lo, hi, j);
    AfterNext(f, lo, hi, j);
    AfterProper(f, lo, hi, j + 1);
    LeftOrder(lo, hi, j - 1);
    if j == 1 { FirstTurn(f, lo, hi, m); } else { LeftBelow(f, lo, hi, j, j - 2); }
  }

  /** The first of the points 1 to n that does not fall, if there is one. */
  lemma {:induction false} FirstLeftRise(f: real -> real, lo: real, hi: real, n: nat) returns (i: nat)
    requires 0 < n && f(LeftPoint(lo, hi, 0)) <= f(RightPoint(lo, hi, 1))
    ensures 0 < i <= n && FallsLeft(f, lo, hi, i)
    ensures i < n ==> f(LeftPoint(lo, hi, i)) >= f(LeftPoint(lo, hi, i - 1))
  {
    hide LeftPoint, RightPoint;
    if n == 1 {
      i := 1;
    } else {
      i := FirstLeftRise(f, lo, hi, n - 1);
      if i == n - 1 && f(LeftPoint(lo, hi, i)) < f(LeftPoint(lo, hi, i - 1)) { i := n; }
    }
  }

  lemma LeftFailure(f: real -> real, lo: real, hi: real, m: real, epsilon: real, k: nat) returns (i: nat)
    requires StrictlyUnimodal(f, lo, hi, m) && lo < hi && f(hi) < f(lo) && FailsAt(f, lo, hi, epsilon, k)
    requires f(LeftPoint(lo, hi, 0)) < f(hi)
    ensures RejectedLeft(f, lo, hi, epsilon, i)
  {
    hide StrictlyUnimodal, LeftPoint, RightPoint, After, SecondPoint, FallsLeft, Settled;
    FirstTurn(f, lo, hi, m);
    assert 0 < k;
    if f(RightPoint(lo, hi, 1)) < f(LeftPoint(lo, hi, 0)) {
      SettledForever(f, lo, hi, m, 1, k);
      assert false;
    }
    i := FirstLeftRise(f, lo, hi, k);
    LeftPath(f, lo, hi, i);
    if f(LeftPoint(lo, hi, i)) < f(hi) {
      if i < k {
        LeftTurn(f, lo, hi, m, i);
        SettledForever(f, lo, hi, m, i + 1, k);
      }
      assert false;
    }
    WidthsShrink(f, lo, hi, i, k);
    LeftOrder(lo, hi, i - 1);
  }

  lemma LeftRejection(f: real -> real, lo: real, hi: real, epsilon: real, j: nat)
    requires lo < hi && f(hi) < f(lo) && RejectedLeft(f, lo, hi, epsilon, j)
    ensures Fails(f, lo, hi, epsilon)
  {
    hide RightPoint, LeftPoint, After, SecondPoint, FallsLeft;
    LeftNext(lo, hi, 0);
    if j == 0 {
      RightFirst(lo, hi);
      AfterStart(f, lo, hi);
    } else {
      LeftPath(f, lo, hi, j);
      LeftOrder(lo, hi, j - 1);
      LaterFails(f, lo, hi, epsilon, j);
    }
  }

  // ----- main results -----

  /** A strictly unimodal function is rejected exactly when, going from the lower end of the interval
      towards the higher one, the first of the listed points that does not fall is not below the lower
      end, and the search gets there before its bracket is narrow. */
  lemma FailsExactly(f: real -> real, lo: real, hi: real, m: real, epsilon: real)
    requires StrictlyUnimodal(f, lo, hi, m) && lo < hi
    ensures Fails(f, lo, hi, epsilon) <==> Rejected(f, lo, hi, epsilon)
  {
    hide StrictlyUnimodal, RightPoint, LeftPoint, After, FailsAt, RejectedRight, RejectedLeft;
    if Fails(f, lo, hi, epsilon) { FailureRejected(f, lo, hi, m, epsilon); }
    if f(lo) <= f(hi) {
      if j: nat :| RejectedRight(f, lo, hi, epsilon, j) { RightRejection(f, lo, hi, epsilon, j); }
    } else {
      if j: nat :| RejectedLeft(f, lo, hi, epsilon, j) { LeftRejection(f, lo, hi, epsilon, j); }
    }
  }

  lemma FailureRejected(f: real -> real, lo: real, hi: real, m: real, epsilon: real)
    requires StrictlyUnimodal(f, lo, hi, m) && lo < hi && Fails(f, lo, hi, epsilon)
    ensures Rejected(f, lo, hi, epsilon)
  {
    hide StrictlyUnimodal, RightPoint, LeftPoint, After, FailsAt;
    AfterStart(f, lo, hi);
    RightFirst(lo, hi);
    LeftNext(lo, hi, 0);
    if High(f, lo, hi, RightPoint(lo, hi, 0)) {
      if f(lo) <= f(hi) {
        assert RejectedRight(f, lo, hi, epsilon, 0);
      } else {
        assert RejectedLeft(f, lo, hi, epsilon, 0);
      }
    } else {
      var k: nat :| FailsAt(f, lo, hi, epsilon, k);
      if f(lo) <= f(hi) {
        var j := RightFailure(f, lo, hi, m, epsilon, k);
      } else {
        var j := LeftFailure(f, lo, hi, m, epsilon, k);
      }
    }
  }

  /** With equal values at the two ends it is never rejected. */
  lemma EqualEndsAccepted(f: real -> real, lo: real, hi: real, m: real, epsilon: real)
    requires StrictlyUnimodal(f, lo, hi, m) && lo < hi && f(lo) == f(hi)
    ensures !Fails(f, lo, hi, epsilon)
  {
    hide StrictlyUnimodal, After, Settled;
    SettledAtStart(f, lo, hi, m);
    forall k: nat ensures !FailsAt(f, lo, hi, epsilon, k) {
      SettledForever(f, lo, hi, m, 0, k);
    }
  }

  lemma SettledAtStart(f: real -> real, lo: real, hi: real, m: real)
    requires StrictlyUnimodal(f, lo, hi, m) && lo < hi && f(lo) == f(hi)
    ensures Settled(f, lo, hi, After(f, lo, hi, 0)) && !High(f, lo, hi, After(f, lo, hi, 0).c)
  {
    AfterProper(f, lo, hi, 0);
    AfterStart(f, lo, hi);
    hide StrictlyUnimodal, After;
    BelowHigher(f, lo, hi, m, lo, lo + RESPHI * (hi - lo), hi);
  }

  /** The whole search on the V with a steep right arm returns the failure code, for every epsilon below
      the width of the interval. */
  method SteepVIsRejected(epsilon: real) returns (ret: int)
    requires 0.0 < epsilon < 1.0
    ensures ret == PLFIT_FAILURE && StrictlyUnimodal(SteepV, 0.0, 1.0, RESPHI)
  {
    hide StrictlyUnimodal, After;
    UShapedButRejected();
    var min, fmin, warning;
    ghost var seen, cancelled, left, right, steps;
    ret, min, fmin, warning, seen, cancelled, left, right, steps :=
      Gss(0.0, 1.0, SteepV, (_, _, _, _, _, _, _) => 0, epsilon, Stop);
    SteepVFails(epsilon);
  }

  lemma SteepVFails(epsilon: real)
    requires epsilon < 1.0
    ensures Fails(SteepV, 0.0, 1.0, epsilon)
  {
    AfterStart(SteepV, 0.0, 1.0);
    hide After;
    LaterFails(SteepV, 0.0, 1.0, epsilon, 0);
  }
}
