/** The cubic and quadratic interpolation formulas of the Moré–Thuente line search
    (the minimizer macros of src/lbfgs.c), over exact reals, together with the
    interpolating polynomials they are meant to minimise. */
module Interpolation {

  function Abs(a: real): real {
    if a < 0.0 then -a else a
  }

  function Max2(a: real, b: real): real {
    if a >= b then a else b
  }

  function Min2(a: real, b: real): real {
    if a <= b then a else b
  }

  /** What the C library's square root promises on non-negative arguments. */
  ghost predicate IsSqrt(sqrt: real -> real) {
    forall z :: 0.0 <= z ==> 0.0 <= sqrt(z) && sqrt(z) * sqrt(z) == z
  }

  /** Division made total; the infinity or NaN of a zero divisor is not modelled. */
  function Quot(a: real, b: real): real {
    if b == 0.0 then 0.0 else a / b
  }

  /** z lies strictly between a and b, whichever way round they are. */
  predicate Between(a: real, z: real, b: real) {
    a < z < b || b < z < a
  }

  // ----- the formulas, as the macros compute them -----

  function Theta(u: real, fu: real, du: real, v: real, fv: real, dv: real): real {
    Quot((fu - fv) * 3.0, v - u) + du + dv
  }

  function Magnitude(theta: real, du: real, dv: real): real {
    Max2(Max2(Abs(theta), Abs(du)), Abs(dv))
  }

  /** The scaled discriminant handed to sqrt. */
  function ScaledDisc(theta: real, du: real, dv: real, s: real): real {
    Quot(theta, s) * Quot(theta, s) - Quot(du, s) * Quot(dv, s)
  }

  /** The formula would take the root of a negative number. */
  predicate NegativeDisc(u: real, fu: real, du: real, v: real, fv: real, dv: real) {
    var theta := Theta(u, fu, du, v, fv, dv);
    ScaledDisc(theta, du, dv, Magnitude(theta, du, dv)) < 0.0
  }

  /** The position of the minimiser as a fraction of the way from u to v. */
  function CubicRatio(du: real, dv: real, theta: real, gamma: real): real {
    Quot(gamma - du + theta, gamma - du + gamma + dv)
  }

  /** The signed root of the discriminant, for a step from u to v. */
  function Gamma(u: real, v: real, du: real, dv: real, theta: real, sqrt: real -> real): real {
    var s := Magnitude(theta, du, dv);
    var gamma := s * sqrt(ScaledDisc(theta, du, dv, s));
    if v < u then -gamma else gamma
  }

  function CubicMinimizer(u: real, fu: real, du: real, v: real, fv: real, dv: real, sqrt: real -> real): real {
    var theta := Theta(u, fu, du, v, fv, dv);
    var gamma := Gamma(u, v, du, dv, theta, sqrt);
    u + CubicRatio(du, dv, theta, gamma) * (v - u)
  }

  /** The same root in the second formula: guarded at zero, and with the opposite sign. */
  function GuardedGamma(u: real, v: real, du: real, dv: real, theta: real, sqrt: real -> real): real {
    var s := Magnitude(theta, du, dv);
    var gamma := s * sqrt(Max2(0.0, ScaledDisc(theta, du, dv, s)));
    if u < v then -gamma else gamma
  }

  function CubicMinimizer2(u: real, fu: real, du: real, v: real, fv: real, dv: real,
                           xmin: real, xmax: real, sqrt: real -> real): real {
    var d := v - u;
    var theta := Theta(u, fu, du, v, fv, dv);
    var gamma := GuardedGamma(u, v, du, dv, theta, sqrt);
    var r := CubicRatio(dv, du, theta, gamma);
    if r < 0.0 && gamma != 0.0 then v - r * d
    else if d > 0.0 then xmax
    else xmin
  }

  function QuadMinimizer(u: real, fu: real, du: real, v: real, fv: real): real {
    var a := v - u;
    u + Quot(du, Quot(fu - fv, a) + du) / 2.0 * a
  }

  function QuadMinimizer2(u: real, du: real, v: real, dv: real): real {
    v + Quot(dv, dv - du) * (u - v)
  }

  // ----- the polynomials they interpolate with -----

  /** The cubic with value fu, slope du at u and value fv, slope dv at v (Hermite form). */
  function Hermite(u: real, fu: real, du: real, v: real, fv: real, dv: real, z: real): real
    requires u != v
  {
    var h := v - u;
    var k := (z - u) / h;
    fu * (1.0 + 2.0 * k) * (1.0 - k) * (1.0 - k) + h * du * k * (1.0 - k) * (1.0 - k)
    + fv * k * k * (3.0 - 2.0 * k) + h * dv * k * k * (k - 1.0)
  }

  /** The coefficient of the square in the parabola below, for a step h. */
  function Bend(fu: real, du: real, fv: real, h: real): real
    requires h != 0.0
  {
    (fv - fu - du * h) / (h * h)
  }

  /** The parabola with value fu, slope du at u and value fv at v. */
  function Parabola(u: real, fu: real, du: real, v: real, fv: real, z: real): real
    requires u != v
  {
    fu + du * (z - u) + Bend(fu, du, fv, v - u) * (z - u) * (z - u)
  }

  /** The derivative that is linear between slope du at u and slope dv at v. */
  function LinearSlope(u: real, du: real, v: real, dv: real, z: real): real
    requires u != v
  {
    du + (dv - du) * ((z - u) / (v - u))
  }

  // ----- elementary sign facts, one product at a time -----

  // The products are out-parameters: the solver rewrites a literal square too eagerly.

  lemma MulPos(a: real, b: real) returns (c: real)
    requires 0.0 < a && 0.0 < b
    ensures c == a * b && 0.0 < c
  { c := a * b; }

  lemma MulNonNeg(a: real, b: real) returns (c: real)
    requires 0.0 <= a && 0.0 <= b
    ensures c == a * b && 0.0 <= c
  { c := a * b; }

  lemma SquareNonNeg(a: real) returns (c: real)
    ensures c == a * a && 0.0 <= c
  { c := a * a; }

  lemma SquareMono(a: real, b: real)
    requires 0.0 <= a <= b
    ensures a * a <= b * b
  {
    var p := MulNonNeg(b - a, a);
    var q := MulNonNeg(b - a, b);
  }

  lemma SquareMonoStrict(a: real, b: real)
    requires 0.0 <= a < b
    ensures a * a < b * b
  {
    var p := MulNonNeg(b - a, a);
    var q := MulPos(b - a, b);
  }

  /** Comparing squares compares magnitudes. */
  lemma SquareCompare(a: real, b: real)
    requires 0.0 <= a && b * b < a * a
    ensures b < a && -b < a
  {
    if a <= b { SquareMono(a, b); }
    if a <= -b { SquareMono(a, -b); }
  }

  lemma SquareCompareWeak(a: real, b: real)
    requires 0.0 <= a && b * b <= a * a
    ensures b <= a && -b <= a
  {
    if a < b { SquareMonoStrict(a, b); }
    if a < -b { SquareMonoStrict(a, -b); }
  }

  // ----- the discriminant -----

  lemma ScaledSquare(a: real, b: real, c: real, s: real)
    requires 0.0 < s
    ensures (Quot(a, s) * Quot(a, s) - Quot(b, s) * Quot(c, s)) * (s * s) == a * a - b * c
  {
    var x, y, z := Quot(a, s), Quot(b, s), Quot(c, s);
    assert x * s == a && y * s == b && z * s == c;
    calc {
      (x * x - y * z) * (s * s);
      (x * s) * (x * s) - (y * s) * (z * s);
      a * a - b * c;
    }
  }

  lemma ScaledRoot(s: real, disc: real, target: real, w: real) returns (g: real)
    requires 0.0 < s && 0.0 <= target && disc * (s * s) == target
    ensures 0.0 <= disc && g == s * w
    ensures 0.0 <= w && w * w == disc ==> 0.0 <= g && g * g == target
  {
    var s2 := MulPos(s, s);
    if disc < 0.0 { var _ := MulPos(-disc, s2); }
    g := s * w;
    if 0.0 <= w && w * w == disc {
      var _ := MulNonNeg(s, w);
      assert g * g == (w * w) * (s * s);
    }
  }

  lemma MagnitudePositive(theta: real, du: real, dv: real)
    requires du != 0.0
    ensures 0.0 < Magnitude(theta, du, dv)
  {}

  /** The scaling by s cancels: gamma squared is theta squared minus du * dv. */
  lemma GammaSquared(theta: real, du: real, dv: real, s: real, sqrt: real -> real) returns (g: real)
    requires IsSqrt(sqrt)
    requires 0.0 < s && 0.0 <= theta * theta - du * dv
    ensures 0.0 <= ScaledDisc(theta, du, dv, s) && g == s * sqrt(ScaledDisc(theta, du, dv, s))
    ensures 0.0 <= g && g * g == theta * theta - du * dv
  {
    ScaledSquare(theta, du, dv, s);
    var disc := ScaledDisc(theta, du, dv, s);
    g := ScaledRoot(s, disc, theta * theta - du * dv, sqrt(disc));
  }

  /** Positive orientation: slope du is negative and either the far slope is positive or the
      mean slope m3 / 3 is positive. Then the ratio p / q lies strictly between 0 and 1. */
  lemma CubicCore(du: real, dv: real, m3: real, theta: real, gamma: real)
    requires du < 0.0 && (0.0 < dv || 0.0 < m3)
    requires theta == du + dv - m3
    requires 0.0 <= gamma && gamma * gamma == theta * theta - du * dv
    ensures 0.0 < gamma
    ensures 0.0 < gamma - du + theta < gamma - du + gamma + dv
    ensures 0.0 <= 2.0 * gamma - du - theta && 0.0 <= 2.0 * gamma + dv + theta
  {
    if 0.0 < dv {
      var p := MulPos(-du, dv);
      SquareCompare(gamma, theta);
    } else {
      var a, b, t := -du, -dv, -theta;
      // gamma > t - a
      var p := MulPos(a, 2.0 * t - a - b);
      assert (t - a) * (t - a) == t * t - a * b - p;
      SquareCompare(gamma, t - a);
      // 2 gamma >= t + b
      var q := MulNonNeg(3.0 * t + b, t - b - a);
      var r := MulNonNeg(a, 3.0 * (t - b));
      assert (2.0 * gamma) * (2.0 * gamma) == 4.0 * (t * t) - 4.0 * (a * b);
      assert (t + b) * (t + b) == 4.0 * (t * t) - 4.0 * (a * b) - q - r;
      SquareCompareWeak(2.0 * gamma, t + b);
    }
  }

  /** The discriminant is positive under the same conditions. */
  lemma DiscPositive(du: real, dv: real, m3: real, theta: real)
    requires du < 0.0 && (0.0 < dv || 0.0 < m3)
    requires theta == du + dv - m3
    ensures 0.0 < theta * theta - du * dv
  {
    if 0.0 < dv {
      var p := MulPos(-du, dv);
      var q := SquareNonNeg(theta);
    } else {
      var p := MulPos(-theta + dv, -theta);
      var q := MulNonNeg(-dv, -theta + du);
      assert p + q == theta * theta - du * dv;
    }
  }

  /** a and d point the same way. */
  predicate Agree(a: real, d: real) {
    (0.0 < a && 0.0 < d) || (a < 0.0 && d < 0.0)
  }

  /** CubicCore, for either sign of the step d: a negative step flips every sign. */
  lemma CubicCoreSigned(d: real, du: real, dv: real, m3: real, theta: real, gamma: real)
    requires Agree(-du, d) && (Agree(dv, d) || Agree(m3, d))
    requires theta == du + dv - m3
    requires gamma * gamma == theta * theta - du * dv
    requires if d < 0.0 then gamma <= 0.0 else 0.0 <= gamma
    ensures Agree(gamma, d)
    ensures 0.0 < CubicRatio(du, dv, theta, gamma) < 1.0
    ensures !Agree(2.0 * gamma - du - theta, -d) && !Agree(2.0 * gamma + dv + theta, -d)
  {
    if 0.0 < d {
      CubicCore(du, dv, m3, theta, gamma);
    } else {
      assert (-gamma) * (-gamma) == (-theta) * (-theta) - (-du) * (-dv);
      CubicCore(-du, -dv, -m3, -theta, -gamma);
    }
    ProperFraction(gamma - du + theta, gamma - du + gamma + dv);
  }

  lemma ProperFraction(p: real, q: real)
    requires 0.0 < p < q || q < p < 0.0
    ensures 0.0 < Quot(p, q) < 1.0
  {
    var r := Quot(p, q);
    assert r * q == p;
    if 0.0 < q { FractionBounds(r, p, q); } else { FractionBounds(r, -p, -q); }
  }

  lemma FractionBounds(r: real, p: real, q: real)
    requires 0.0 < p < q && r * q == p
    ensures 0.0 < r < 1.0
  {
    if r <= 0.0 { var _ := MulNonNeg(-r, q); }
    if 1.0 <= r { var _ := MulNonNeg(r - 1.0, q); }
  }

  /** The ratio solves the derivative of the cubic, and gamma is half its second derivative there. */
  lemma CubicStationary(du: real, dv: real, theta: real, gamma: real, r: real)
    requires gamma * gamma == theta * theta - du * dv
    requires gamma - du + gamma + dv != 0.0
    requires r * (gamma - du + gamma + dv) == gamma - du + theta
    ensures (du + dv + 2.0 * theta) * r == du + theta + gamma
    ensures r * (gamma - du - theta) + du == 0.0
  {
    var q, p, k := gamma - du + gamma + dv, gamma - du + theta, du + dv + 2.0 * theta;
    ZeroFactor(k * r - (du + theta + gamma), q) by {
      assert (k * r) * q == k * (r * q);
      assert k * p - (du + theta + gamma) * q == 0.0;
    }
    ZeroFactor(r * (gamma - du - theta) + du, q) by {
      assert (r * (gamma - du - theta)) * q == (r * q) * (gamma - du - theta);
      assert p * (gamma - du - theta) + du * q == 0.0;
    }
  }

  lemma RatioSolves(du: real, dv: real, theta: real, gamma: real)
    requires gamma - du + gamma + dv != 0.0
    ensures CubicRatio(du, dv, theta, gamma) * (gamma - du + gamma + dv) == gamma - du + theta
  {
    RatioTimes(gamma - du + theta, gamma - du + gamma + dv, CubicRatio(du, dv, theta, gamma));
  }

  lemma ZeroFactor(a: real, q: real)
    requires q != 0.0 && a * q == 0.0
    ensures a == 0.0
  {}

  /** What every call of the cubic formula relies on: the function goes down from u towards v,
      and either it goes up at v or it is higher at v. */
  predicate Valley(u: real, fu: real, du: real, v: real, fv: real, dv: real) {
    u != v && Agree(-du, v - u) && (Agree(dv, v - u) || fu < fv)
  }

  lemma SquareNeg(a: real)
    ensures (-a) * (-a) == a * a
  {}

  lemma QuotNeg(a: real, d: real)
    ensures Quot(-a, d) == -Quot(a, d)
  {}

  lemma QuotSign(a: real, d: real)
    requires 0.0 < a && d != 0.0
    ensures Agree(Quot(a, d), d)
  {
    var r := Quot(a, d);
    assert r * d == a;
    if 0.0 < d && r <= 0.0 { var _ := MulNonNeg(-r, d); }
    if d < 0.0 && 0.0 <= r { var _ := MulNonNeg(r, -d); }
  }

  lemma FractionOf(r: real, u: real, v: real) returns (z: real)
    requires 0.0 < r < 1.0 && u != v
    ensures z == u + r * (v - u) && Between(u, z, v)
  {
    z := u + r * (v - u);
    if u < v {
      var p := MulPos(r, v - u);
      var q := MulPos(1.0 - r, v - u);
    } else {
      var p := MulPos(r, u - v);
      var q := MulPos(1.0 - r, u - v);
    }
  }

  lemma DiscPositiveSigned(d: real, du: real, dv: real, m3: real, theta: real)
    requires Agree(-du, d) && (Agree(dv, d) || Agree(m3, d))
    requires theta == du + dv - m3
    ensures 0.0 < theta * theta - du * dv
  {
    if 0.0 < d {
      DiscPositive(du, dv, m3, theta);
    } else {
      DiscPositive(-du, -dv, -m3, -theta);
      assert (-theta) * (-theta) - (-du) * (-dv) == theta * theta - du * dv;
    }
  }

  lemma ThetaOf(u: real, fu: real, du: real, v: real, fv: real, dv: real) returns (m3: real, theta: real)
    requires u != v
    ensures m3 == Quot((fv - fu) * 3.0, v - u) && theta == Theta(u, fu, du, v, fv, dv) == du + dv - m3
    ensures fu < fv ==> Agree(m3, v - u)
  {
    m3 := Quot((fv - fu) * 3.0, v - u);
    theta := Theta(u, fu, du, v, fv, dv);
    QuotNeg((fv - fu) * 3.0, v - u);
    assert (fu - fv) * 3.0 == -((fv - fu) * 3.0);
    if fu < fv { QuotSign((fv - fu) * 3.0, v - u); }
  }

  lemma GammaOf(u: real, v: real, du: real, dv: real, theta: real, sqrt: real -> real) returns (gamma: real)
    requires IsSqrt(sqrt) && du != 0.0 && 0.0 <= theta * theta - du * dv
    ensures gamma == Gamma(u, v, du, dv, theta, sqrt)
    ensures gamma * gamma == theta * theta - du * dv
    ensures if v < u then gamma <= 0.0 else 0.0 <= gamma
    ensures 0.0 <= ScaledDisc(theta, du, dv, Magnitude(theta, du, dv))
  {
    hide Magnitude, ScaledDisc;
    MagnitudePositive(theta, du, dv);
    var s := Magnitude(theta, du, dv);
    var g := GammaSquared(theta, du, dv, s, sqrt);
    SquareNeg(g);
    gamma := Gamma(u, v, du, dv, theta, sqrt);
  }

  lemma ValleyDisc(u: real, fu: real, du: real, v: real, fv: real, dv: real, sqrt: real -> real)
    returns (m3: real, theta: real, gamma: real)
    requires IsSqrt(sqrt) && Valley(u, fu, du, v, fv, dv)
    ensures m3 == Quot((fv - fu) * 3.0, v - u) && theta == Theta(u, fu, du, v, fv, dv) == du + dv - m3
    ensures gamma == Gamma(u, v, du, dv, theta, sqrt)
    ensures 0.0 <= ScaledDisc(theta, du, dv, Magnitude(theta, du, dv))
    ensures gamma * gamma == theta * theta - du * dv && Agree(gamma, v - u)
    ensures 0.0 < CubicRatio(du, dv, theta, gamma) < 1.0
    ensures !Agree(2.0 * gamma - du - theta, u - v) && !Agree(2.0 * gamma + dv + theta, u - v)
  {
    m3, theta := ThetaOf(u, fu, du, v, fv, dv);
    DiscPositiveSigned(v - u, du, dv, m3, theta);
    gamma := GammaOf(u, v, du, dv, theta, sqrt);
    CubicCoreSigned(v - u, du, dv, m3, theta, gamma);
  }

  lemma ValleyRatio(u: real, fu: real, du: real, v: real, fv: real, dv: real, sqrt: real -> real)
    returns (r: real)
    requires IsSqrt(sqrt) && Valley(u, fu, du, v, fv, dv)
    ensures CubicMinimizer(u, fu, du, v, fv, dv, sqrt) == u + r * (v - u)
    ensures 0.0 < r < 1.0
  {
    hide Theta, Gamma, CubicRatio, Quot, ScaledDisc, Magnitude;
    var m3, theta, gamma := ValleyDisc(u, fu, du, v, fv, dv, sqrt);
    r := CubicRatio(du, dv, theta, gamma);
  }

  /** The formula takes no root of a negative number, and its result lies strictly between the points. */
  lemma CubicMinimizerInside(u: real, fu: real, du: real, v: real, fv: real, dv: real, sqrt: real -> real)
    requires IsSqrt(sqrt) && Valley(u, fu, du, v, fv, dv)
    ensures !NegativeDisc(u, fu, du, v, fv, dv)
    ensures Between(u, CubicMinimizer(u, fu, du, v, fv, dv, sqrt), v)
  {
    hide CubicMinimizer, Theta, ScaledDisc, Magnitude, Gamma, CubicRatio;
    var m3, theta, gamma := ValleyDisc(u, fu, du, v, fv, dv, sqrt);
    var r := ValleyRatio(u, fu, du, v, fv, dv, sqrt);
    var z := FractionOf(r, u, v);
  }

  /** The Hermite cubic, relative to u and in units of the step: slope du, turned by theta. */
  function CubicAt(du: real, theta: real, lead: real, k: real): real {
    du * k - (du + theta) * (k * k) + lead / 3.0 * (k * k * k)
  }

  lemma HermiteExpand(u: real, fu: real, du: real, v: real, fv: real, dv: real, theta: real, z: real)
    requires u != v && theta == Theta(u, fu, du, v, fv, dv)
    ensures var k := (z - u) / (v - u);
            Hermite(u, fu, du, v, fv, dv, z) == fu + (v - u) * CubicAt(du, theta, du + dv + 2.0 * theta, k)
  {
    var h, k := v - u, (z - u) / (v - u);
    var m := Quot((fu - fv) * 3.0, h);
    assert m * h == 3.0 * (fu - fv) && theta == m + du + dv;
    HermitePolynomial(h, fu, du, fv, dv, m, k);
  }

  lemma HermitePolynomial(h: real, fu: real, du: real, fv: real, dv: real, m: real, k: real)
    requires m * h == 3.0 * (fu - fv)
    ensures fu * (1.0 + 2.0 * k) * (1.0 - k) * (1.0 - k) + h * du * k * (1.0 - k) * (1.0 - k)
            + fv * k * k * (3.0 - 2.0 * k) + h * dv * k * k * (k - 1.0)
         == fu + h * CubicAt(du, m + du + dv, du + dv + 2.0 * (m + du + dv), k)
  {
    var k2, k3 := k * k, k * k * k;
    assert h * CubicAt(du, m + du + dv, du + dv + 2.0 * (m + du + dv), k)
        == h * du * k - (2.0 * h * du + h * dv + m * h) * k2 + (h * du + h * dv + 2.0 / 3.0 * (m * h)) * k3;
  }

  /** Near a stationary point r the cubic exceeds its value there by a square times a linear factor. */
  lemma CubicAboveStationary(du: real, theta: real, lead: real, gamma: real, r: real, k: real)
    requires lead * r == du + theta + gamma && r * (gamma - du - theta) + du == 0.0
    ensures CubicAt(du, theta, lead, k) - CubicAt(du, theta, lead, r)
         == ((k - r) * (k - r)) * (gamma + lead / 3.0 * (k - r))
  {
    var e := k - r;
    calc {
      CubicAt(du, theta, lead, k) - CubicAt(du, theta, lead, r);
      e * (du - 2.0 * (du + theta) * r + (lead * r) * r) + (e * e) * (lead * r - (du + theta))
        + lead / 3.0 * (e * e * e);
      e * (r * (gamma - du - theta) + du) + (e * e) * gamma + lead / 3.0 * (e * e * e);
      (e * e) * (gamma + lead / 3.0 * e);
    }
  }

  /** A linear function that is not negative at 0 and 1 is not negative in between. */
  lemma LinearSign(d: real, l0: real, l1: real, k: real)
    requires 0.0 <= k <= 1.0 && !Agree(l0, -d) && !Agree(l1, -d)
    ensures !Agree(l0 + k * (l1 - l0), -d)
  {
    if 0.0 < d {
      var p := MulNonNeg(1.0 - k, l0);
      var q := MulNonNeg(k, l1);
    } else if d < 0.0 {
      var p := MulNonNeg(1.0 - k, -l0);
      var q := MulNonNeg(k, -l1);
    }
  }

  lemma SignedProduct(d: real, e2: real, l: real)
    requires d != 0.0 && 0.0 <= e2 && !Agree(l, -d)
    ensures 0.0 <= d * (e2 * l)
  {
    if 0.0 < d {
      var p := MulNonNeg(e2, l);
      var q := MulNonNeg(d, p);
    } else {
      var p := MulNonNeg(e2, -l);
      var q := MulNonNeg(-d, p);
    }
  }

  /** Where the linear factor has the sign of the step, the cubic is no lower than at r. */
  lemma CubicNoLower(d: real, du: real, theta: real, lead: real, gamma: real, r: real, k: real)
    requires d != 0.0 && !Agree(gamma + lead / 3.0 * (k - r), -d)
    requires lead * r == du + theta + gamma && r * (gamma - du - theta) + du == 0.0
    ensures d * CubicAt(du, theta, lead, r) <= d * CubicAt(du, theta, lead, k)
  {
    hide CubicAt;
    CubicAboveStationary(du, theta, lead, gamma, r, k);
    var e2 := SquareNonNeg(k - r);
    var l := gamma + lead / 3.0 * (k - r);
    SignedProduct(d, e2, l);
    Distribute(d, CubicAt(du, theta, lead, k), CubicAt(du, theta, lead, r), e2 * l);
  }

  /** The linear factor between the two points, from its values at the ends. */
  lemma FactorInside(d: real, du: real, dv: real, theta: real, gamma: real, r: real, k: real)
    requires 0.0 <= k <= 1.0
    requires !Agree(2.0 * gamma - du - theta, -d) && !Agree(2.0 * gamma + dv + theta, -d)
    requires (du + dv + 2.0 * theta) * r == du + theta + gamma
    ensures !Agree(gamma + (du + dv + 2.0 * theta) / 3.0 * (k - r), -d)
  {
    var lead := du + dv + 2.0 * theta;
    var l0, l := 2.0 * gamma - du - theta, gamma + lead / 3.0 * (k - r);
    LinearSign(d, l0, 2.0 * gamma + dv + theta, k);
    assert 3.0 * l == l0 + k * lead;
  }

  /** The linear factor from r on to the second point. */
  lemma FactorBeyond(d: real, du: real, dv: real, theta: real, gamma: real, r: real, k: real)
    requires r <= k <= 1.0 && r < 1.0
    requires !Agree(gamma, -d) && !Agree(2.0 * gamma + dv + theta, -d)
    requires (du + dv + 2.0 * theta) * r == du + theta + gamma
    ensures !Agree(gamma + (du + dv + 2.0 * theta) / 3.0 * (k - r), -d)
  {
    var lead := du + dv + 2.0 * theta;
    var t := (k - r) / (1.0 - r);
    RatioRange(r, 1.0, k);
    LinearSign(d, 3.0 * gamma, 2.0 * gamma + dv + theta, t);
    assert t * (1.0 - r) == k - r;
    assert 2.0 * gamma + dv + theta - 3.0 * gamma == lead * (1.0 - r);
    assert t * (lead * (1.0 - r)) == lead * (k - r);
  }

  lemma Distribute(d: real, a: real, b: real, c: real)
    requires a - b == c
    ensures d * a - d * b == d * c
  {}

  /** The cubic formula returns a minimiser of the interpolating cubic over the whole segment. */
  lemma CubicMinimizerOptimal(u: real, fu: real, du: real, v: real, fv: real, dv: real,
                              z: real, sqrt: real -> real)
    requires IsSqrt(sqrt) && Valley(u, fu, du, v, fv, dv)
    requires u <= z <= v || v <= z <= u
    ensures Hermite(u, fu, du, v, fv, dv, CubicMinimizer(u, fu, du, v, fv, dv, sqrt))
         <= Hermite(u, fu, du, v, fv, dv, z)
  {
    hide Theta, Gamma, Hermite, ScaledDisc, Magnitude, CubicAt;
    var m3, theta, gamma := ValleyDisc(u, fu, du, v, fv, dv, sqrt);
    var r := CubicRatio(du, dv, theta, gamma);
    var cm := CubicMinimizer(u, fu, du, v, fv, dv, sqrt);
    RatioSolves(du, dv, theta, gamma);
    CubicStationary(du, dv, theta, gamma, r);
    HermiteExpand(u, fu, du, v, fv, dv, theta, z);
    HermiteExpand(u, fu, du, v, fv, dv, theta, cm);
    PlaceToRatio(u, v, r, cm);
    RatioRange(u, v, z);
    FactorInside(v - u, du, dv, theta, gamma, r, (z - u) / (v - u));
    CubicNoLower(v - u, du, theta, du + dv + 2.0 * theta, gamma, r, (z - u) / (v - u));
  }

  lemma PlaceToRatio(u: real, v: real, r: real, z: real)
    requires u != v && z == u + r * (v - u)
    ensures (z - u) / (v - u) == r
  {}

  lemma ScaleOrder(a: real, b: real, d: real)
    requires 0.0 < d && a * d <= b * d
    ensures a <= b
  {
    if b < a { var p := MulPos(a - b, d); }
  }

  lemma RatioOrder(a: real, b: real, d: real)
    requires d != 0.0 && (if 0.0 < d then a * d <= b * d else b * d <= a * d)
    ensures a <= b
  {
    if 0.0 < d {
      ScaleOrder(a, b, d);
    } else {
      assert a * (-d) == -(a * d) && b * (-d) == -(b * d);
      ScaleOrder(a, b, -d);
    }
  }

  lemma RatioRange(u: real, v: real, z: real)
    requires u != v && (u <= z <= v || v <= z <= u)
    ensures 0.0 <= (z - u) / (v - u) <= 1.0
  {
    var k, d := (z - u) / (v - u), v - u;
    RatioTimes(z - u, d, k);
    RatioOrder(0.0, k, d);
    RatioOrder(k, 1.0, d);
  }

  lemma RatioTimes(a: real, d: real, k: real)
    requires d != 0.0 && k == a / d
    ensures k * d == a
  {}

  // ----- the quadratic formulas -----

  lemma HalfFraction(p: real, q: real, u: real, v: real) returns (z: real)
    requires u != v && (0.0 < p < q || q < p < 0.0)
    ensures z == u + Quot(p, q) / 2.0 * (v - u) && Between(u, z, v)
  {
    ProperFraction(p, q);
    z := FractionOf(Quot(p, q) / 2.0, u, v);
  }

  /** The quadratic formula lands strictly between the points when v is higher. */
  lemma QuadMinimizerInside(u: real, fu: real, du: real, v: real, fv: real)
    requires u != v && Agree(-du, v - u) && fu < fv
    ensures Between(u, QuadMinimizer(u, fu, du, v, fv), v)
  {
    QuotNeg(fv - fu, v - u);
    QuotSign(fv - fu, v - u);
    hide Quot;
    assert -(fv - fu) == fu - fv;
    var z := HalfFraction(du, Quot(fu - fv, v - u) + du, u, v);
  }

  /** ... and it minimises the interpolating parabola over the whole line. */
  lemma QuadMinimizerOptimal(u: real, fu: real, du: real, v: real, fv: real, z: real)
    requires u != v && Agree(-du, v - u) && fu < fv
    ensures Parabola(u, fu, du, v, fv, QuadMinimizer(u, fu, du, v, fv)) <= Parabola(u, fu, du, v, fv, z)
  {
    var h := v - u;
    var m := MeanSlope(fu, fv, h);
    var c := Curvature(fu, du, fv, h, m);
    var w := Quot(du, m + du);
    var e := QuadMinimizer(u, fu, du, v, fv) - u;
    RatioTimes(du, m + du, w);
    hide Quot, Parabola, Bend;
    assert e == w / 2.0 * h;
    Vertex(du, c, h, m, w, e);
    hide QuadMinimizer;
    ParabolaFrom(u, fu, du, v, fv, e);
    ParabolaFrom(u, fu, du, v, fv, z - u);
    ParabolaAboveVertex(du, c, e, z - u);
  }

  lemma ParabolaFrom(u: real, fu: real, du: real, v: real, fv: real, e: real)
    requires u != v
    ensures var c := Bend(fu, du, fv, v - u); Parabola(u, fu, du, v, fv, u + e) == fu + (du * e + c * e * e)
  {
    hide Bend;
    var z := u + e;
    assert z - u == e;
  }

  lemma MeanSlope(fu: real, fv: real, h: real) returns (m: real)
    requires h != 0.0 && fu < fv
    ensures m == Quot(fu - fv, h) && m * h == fu - fv && Agree(-m, h)
  {
    m := Quot(fu - fv, h);
    RatioTimes(fu - fv, h, m);
    QuotNeg(fv - fu, h);
    QuotSign(fv - fu, h);
    assert -(fv - fu) == fu - fv;
  }

  lemma Vertex(du: real, c: real, h: real, m: real, w: real, e: real)
    requires c * h == -(m + du) && w * (m + du) == du && e == w / 2.0 * h
    ensures 2.0 * (c * e) == -du
  {
    assert (c * e) * 2.0 == (c * h) * w;
    assert (c * h) * w == -(m + du) * w;
  }

  lemma Curvature(fu: real, du: real, fv: real, h: real, m: real) returns (c: real)
    requires h != 0.0 && m * h == fu - fv && Agree(-du, h) && Agree(-m, h)
    ensures c == Bend(fu, du, fv, h) && 0.0 < c && c * h == -(m + du)
  {
    var h2 := MulPos(if h < 0.0 then -h else h, if h < 0.0 then -h else h);
    assert h2 == h * h;
    c := (fv - fu - du * h) / h2;
    assert c * h2 == -(m + du) * h;
    assert (c * h + (m + du)) * h == 0.0 by { assert (c * h) * h == c * h2; }
    ZeroFactor(c * h + (m + du), h);
    if c <= 0.0 {
      if 0.0 < h { var _ := MulNonNeg(-c, h); } else { var _ := MulNonNeg(-c, -h); }
    }
  }

  lemma ParabolaAboveVertex(du: real, c: real, e: real, k: real)
    requires 0.0 < c && 2.0 * (c * e) == -du
    ensures du * e + c * e * e <= du * k + c * k * k
  {
    var s := SquareNonNeg(k - e);
    var p := MulNonNeg(c, s);
    assert p == c * k * k - 2.0 * (c * e) * k + (c * e) * e;
    assert (c * e) * e == c * e * e;
    assert du * e == -2.0 * (c * e) * e;
  }

  /** The secant formula finds the zero of the interpolated slope. */
  lemma SecantZero(u: real, du: real, v: real, dv: real)
    requires u != v && du != dv
    ensures LinearSlope(u, du, v, dv, QuadMinimizer2(u, du, v, dv)) == 0.0
  {
    var w := Quot(dv, dv - du);
    assert w * (dv - du) == dv;
    PlaceToRatio(u, v, 1.0 - w, QuadMinimizer2(u, du, v, dv));
  }

  lemma QuadMinimizer2Inside(u: real, du: real, v: real, dv: real)
    requires u != v && Agree(-du, v - u) && Agree(dv, v - u)
    ensures Between(u, QuadMinimizer2(u, du, v, dv), v)
  {
    ProperFraction(dv, dv - du);
    hide Quot;
    var z := FractionOf(Quot(dv, dv - du), v, u);
  }

  lemma QuadMinimizer2Beyond(u: real, du: real, v: real, dv: real)
    requires u != v && Agree(-du, v - u) && Agree(-dv, v - u) && Abs(dv) < Abs(du)
    ensures Agree(QuadMinimizer2(u, du, v, dv) - v, v - u)
  {
    if u < v { QuotSign(-dv, dv - du); QuotNeg(dv, dv - du); } else { QuotSign(dv, dv - du); }
    hide Quot;
    BeyondPlace(Quot(dv, dv - du), u, v);
  }

  lemma BeyondPlace(r: real, u: real, v: real)
    requires r < 0.0 && u != v
    ensures Agree(r * (u - v), v - u)
  {
    if u < v { var p := MulPos(-r, v - u); } else { var p := MulPos(-r, u - v); }
  }

  lemma CubicMinimizer2Beyond(u: real, fu: real, du: real, v: real, fv: real, dv: real,
                              xmin: real, xmax: real, sqrt: real -> real)
    requires u != v
    ensures var mc := CubicMinimizer2(u, fu, du, v, fv, dv, xmin, xmax, sqrt);
            Agree(mc - v, v - u) || mc == (if u < v then xmax else xmin)
  {
    hide Theta, GuardedGamma, CubicRatio;
    var theta := Theta(u, fu, du, v, fv, dv);
    var r := CubicRatio(dv, du, theta, GuardedGamma(u, v, du, dv, theta, sqrt));
    if r < 0.0 { BeyondPlace(r, u, v); }
  }

  lemma HermiteSwap(u: real, fu: real, du: real, v: real, fv: real, dv: real, z: real)
    requires u != v
    ensures Hermite(u, fu, du, v, fv, dv, z) == Hermite(v, fv, dv, u, fu, du, z)
  {
    var k := (z - u) / (v - u);
    PlaceToRatio(v, u, 1.0 - k, z);
  }

  /** Two slopes of one sign, shrinking towards the first point, and a cubic that turns: the
      ratio is negative, that is, the minimiser lies beyond the first point. */
  lemma BeyondCore(du: real, dv: real, theta: real, gamma: real)
    requires 0.0 < du < dv && theta < 0.0 && 0.0 < gamma
    requires gamma * gamma == theta * theta - du * dv
    ensures gamma - du + theta < 0.0 < gamma - du + gamma + dv
    ensures 0.0 <= 2.0 * gamma + dv + theta
  {
    var p := MulPos(du, dv);
    SquareCompare(-theta, gamma);
    var q := MulNonNeg(dv - du, dv);
    var w := MulPos(gamma, dv);
    assert (gamma + dv) * (gamma + dv) == theta * theta + 2.0 * w + q;
    SquareCompareWeak(gamma + dv, theta);
  }

  lemma BeyondCoreSigned(d: real, du: real, dv: real, theta: real, gamma: real)
    requires Agree(du, d) && Agree(dv, d) && Abs(du) < Abs(dv) && Agree(-theta, d) && Agree(gamma, d)
    requires gamma * gamma == theta * theta - du * dv
    ensures CubicRatio(du, dv, theta, gamma) < 0.0 && gamma - du + gamma + dv != 0.0
    ensures !Agree(2.0 * gamma + dv + theta, -d)
  {
    if 0.0 < d {
      BeyondCore(du, dv, theta, gamma);
      QuotSign(-(gamma - du + theta), gamma - du + gamma + dv);
    } else {
      SquareNeg(gamma); SquareNeg(theta);
      assert (-du) * (-dv) == du * dv;
      BeyondCore(-du, -dv, -theta, -gamma);
      QuotSign(gamma - du + theta, gamma - du + gamma + dv);
    }
    QuotNeg(gamma - du + theta, gamma - du + gamma + dv);
  }

  lemma ScaledDiscSwap(theta: real, du: real, dv: real, s: real)
    ensures ScaledDisc(theta, du, dv, s) == ScaledDisc(theta, dv, du, s)
  {}

  lemma GammaSwap(u: real, v: real, du: real, dv: real, theta: real, sqrt: real -> real)
    requires u != v && 0.0 <= ScaledDisc(theta, dv, du, Magnitude(theta, dv, du))
    ensures Gamma(v, u, dv, du, theta, sqrt) == GuardedGamma(u, v, du, dv, theta, sqrt)
  {
    var s := Magnitude(theta, du, dv);
    assert Magnitude(theta, dv, du) == s;
    hide Magnitude;
    ScaledDiscSwap(theta, du, dv, s);
    hide ScaledDisc;
  }

  lemma BeyondOptimal(u: real, fu: real, du: real, v: real, fv: real, dv: real,
                      theta: real, gamma: real, r: real, mc: real, z: real)
    requires u != v && theta == Theta(u, fu, du, v, fv, dv)
    requires gamma * gamma == theta * theta - du * dv
    requires gamma - du + gamma + dv != 0.0 && r == CubicRatio(du, dv, theta, gamma) < 0.0
    requires Agree(gamma, v - u) && !Agree(2.0 * gamma + dv + theta, u - v)
    requires mc == u + r * (v - u) && (mc <= z <= v || v <= z <= mc)
    ensures Hermite(u, fu, du, v, fv, dv, mc) <= Hermite(u, fu, du, v, fv, dv, z)
  {
    hide Theta, Hermite, CubicAt;
    RatioSolves(du, dv, theta, gamma);
    CubicStationary(du, dv, theta, gamma, r);
    HermiteExpand(u, fu, du, v, fv, dv, theta, z);
    HermiteExpand(u, fu, du, v, fv, dv, theta, mc);
    PlaceToRatio(u, v, r, mc);
    var k := (z - u) / (v - u);
    RatioBeyond(u, v, r, mc, z);
    FactorBeyond(v - u, du, dv, theta, gamma, r, k);
    CubicNoLower(v - u, du, theta, du + dv + 2.0 * theta, gamma, r, k);
  }

  lemma RatioBeyond(u: real, v: real, r: real, mc: real, z: real)
    requires u != v && mc == u + r * (v - u) && (mc <= z <= v || v <= z <= mc) && r < 0.0
    ensures r <= (z - u) / (v - u) <= 1.0
  {
    var k := (z - u) / (v - u);
    assert k * (v - u) == z - u;
    BeyondPlace(r, v, u);
    assert r * (v - u) == mc - u;
    RatioOrder(r, k, v - u);
    RatioOrder(k, 1.0, v - u);
  }

  lemma Minimizer2Turns(u: real, fu: real, du: real, v: real, fv: real, dv: real,
                        xmin: real, xmax: real, r: real, sqrt: real -> real) returns (mc: real)
    requires var theta := Theta(u, fu, du, v, fv, dv);
             var gamma := GuardedGamma(u, v, du, dv, theta, sqrt);
             gamma != 0.0 && r == CubicRatio(dv, du, theta, gamma) < 0.0
    ensures mc == CubicMinimizer2(u, fu, du, v, fv, dv, xmin, xmax, sqrt) == v - r * (v - u)
  {
    hide Theta, GuardedGamma, CubicRatio;
    mc := v - r * (v - u);
  }

  /** When the slopes shrink towards v and the cubic turns beyond v, the second cubic formula
      returns its minimiser over everything from u to that point. */
  lemma CubicMinimizer2Optimal(u: real, fu: real, du: real, v: real, fv: real, dv: real,
                               xmin: real, xmax: real, z: real, sqrt: real -> real)
    requires IsSqrt(sqrt) && u != v
    requires Agree(-du, v - u) && Agree(-dv, v - u) && Abs(dv) < Abs(du)
    requires var theta := Theta(u, fu, du, v, fv, dv);
             Agree(theta, v - u) && du * dv < theta * theta
    ensures var mc := CubicMinimizer2(u, fu, du, v, fv, dv, xmin, xmax, sqrt);
            Agree(mc - v, v - u) &&
            (u <= z <= mc || mc <= z <= u ==>
               Hermite(u, fu, du, v, fv, dv, mc) <= Hermite(u, fu, du, v, fv, dv, z))
  {
    hide Hermite, ScaledDisc, Magnitude, CubicAt, CubicRatio;
    var m3, theta := ThetaOf(v, fv, dv, u, fu, du);
    var m3', theta' := ThetaOf(u, fu, du, v, fv, dv);
    assert theta == theta';
    var gamma := GammaOf(v, u, dv, du, theta, sqrt);
    GammaSwap(u, v, du, dv, theta, sqrt);
    BeyondCoreSigned(u - v, dv, du, theta, gamma);
    var r := CubicRatio(dv, du, theta, gamma);
    var mc := Minimizer2Turns(u, fu, du, v, fv, dv, xmin, xmax, r, sqrt);
    BeyondPlace(r, u, v);
    if u <= z <= mc || mc <= z <= u {
      BeyondOptimal(v, fv, dv, u, fu, du, theta, gamma, r, mc, z);
      HermiteSwap(u, fu, du, v, fv, dv, mc);
      HermiteSwap(u, fu, du, v, fv, dv, z);
    }
  }

  lemma NoTurnCore(du: real, dv: real, theta: real, gamma: real)
    requires du < dv < 0.0 && theta < 0.0 && gamma <= 0.0
    requires gamma * gamma == theta * theta - du * dv
    ensures gamma - dv + theta < 0.0 && gamma - dv + gamma + du < 0.0
  {
    var p := MulPos(-dv, dv - du);
    var q := SquareNonNeg(gamma);
    SquareNeg(theta);
    SquareCompare(-theta, dv);
  }

  lemma NegativeRatio(a: real, b: real)
    requires (a < 0.0 && b < 0.0) || (0.0 < a && 0.0 < b)
    ensures 0.0 < Quot(a, b)
  {
    if 0.0 < a {
      QuotSign(a, b);
    } else {
      QuotSign(-a, b);
      QuotNeg(a, b);
    }
  }

  lemma NoTurnRatio(d: real, du: real, dv: real, theta: real, gamma: real)
    requires Agree(-du, d) && Agree(-dv, d) && Abs(dv) < Abs(du) && Agree(-theta, d) && !Agree(gamma, d)
    requires gamma * gamma == theta * theta - du * dv
    ensures 0.0 < CubicRatio(dv, du, theta, gamma)
  {
    if 0.0 < d {
      NoTurnCore(du, dv, theta, gamma);
    } else {
      SquareNeg(gamma);
      SquareNeg(theta);
      assert (-du) * (-dv) == du * dv;
      NoTurnCore(-du, -dv, -theta, -gamma);
    }
    NegativeRatio(gamma - dv + theta, gamma - dv + gamma + du);
  }

  lemma SlopeProduct(du: real, dv: real, d: real)
    requires Agree(-du, d) && Agree(-dv, d)
    ensures 0.0 < du * dv
  {
    if 0.0 < d { var p := MulPos(-du, -dv); } else { var p := MulPos(du, dv); }
  }

  /** No positive discriminant: the guarded root is zero. */
  lemma GuardedRootZero(u: real, v: real, du: real, dv: real, theta: real, sqrt: real -> real)
    requires IsSqrt(sqrt) && du != 0.0 && theta * theta <= du * dv
    ensures GuardedGamma(u, v, du, dv, theta, sqrt) == 0.0
  {
    hide Magnitude;
    MagnitudePositive(theta, du, dv);
    var s := Magnitude(theta, du, dv);
    ScaledSquare(theta, du, dv, s);
    var disc := ScaledDisc(theta, du, dv, s);
    var s2 := MulPos(s, s);
    if 0.0 < disc { var p := MulPos(disc, s2); }
    var z := sqrt(0.0);
    if 0.0 < z { var q := MulPos(z, z); }
  }

  /** ... and when the cubic does not turn there, the far bound. */
  lemma CubicMinimizer2Bound(u: real, fu: real, du: real, v: real, fv: real, dv: real,
                             xmin: real, xmax: real, sqrt: real -> real)
    requires IsSqrt(sqrt) && u != v
    requires Agree(-du, v - u) && Agree(-dv, v - u) && Abs(dv) < Abs(du)
    requires var theta := Theta(u, fu, du, v, fv, dv);
             !(Agree(theta, v - u) && du * dv < theta * theta)
    ensures CubicMinimizer2(u, fu, du, v, fv, dv, xmin, xmax, sqrt) == if u < v then xmax else xmin
  {
    hide Theta, Magnitude, ScaledDisc;
    var theta := Theta(u, fu, du, v, fv, dv);
    if theta * theta <= du * dv {
      GuardedRootZero(u, v, du, dv, theta, sqrt);
    } else {
      SlopeProduct(du, dv, v - u);
      var gamma := GammaOf(v, u, dv, du, theta, sqrt);
      GammaSwap(u, v, du, dv, theta, sqrt);
      NoTurnRatio(v - u, du, dv, theta, gamma);
    }
  }
}
