/** plfit_rbinom of src/rbinom.c: inversion of the binomial distribution for small means, the cached
    set-up between calls, and the explicit probability ratios of the rejection method. */
module Binomial {
  import opened Interpolation
  import opened Vectors

  // ----- the binomial distribution -----

  function Choose(n: nat, k: nat): nat {
    if k == 0 then 1 else if n == 0 then 0 else Choose(n - 1, k - 1) + Choose(n - 1, k)
  }

  /** C(n, k) p^k (1 - p)^(n - k) */
  function Pmf(n: nat, p: real, k: nat): real {
    if k > n then 0.0 else Mul(Choose(n, k) as real, Mul(Pow(p, k), Pow(1.0 - p, n - k)))
  }

  /** The probability of less than k successes. */
  function Cdf(n: nat, p: real, k: nat): real {
    if k == 0 then 0.0 else Cdf(n, p, k - 1) + Pmf(n, p, k - 1)
  }

  lemma {:induction false} ChooseAbove(n: nat, k: nat)
    requires n < k
    ensures Choose(n, k) == 0
  {
    if n > 0 { ChooseAbove(n - 1, k - 1); ChooseAbove(n - 1, k); }
  }

  /** k C(n, k) = (n - k + 1) C(n, k - 1) */
  lemma {:induction false} ChooseRatio(n: nat, k: nat)
    requires k >= 1
    ensures k * Choose(n, k) == (n - k + 1) * Choose(n, k - 1)
  {
    if n == 0 {
      if k > 1 { ChooseAbove(0, k - 1); }
    } else {
      ChooseRatio(n - 1, k);
      if k > 1 {
        ChooseRatio(n - 1, k - 1);
        var a, b, c := Choose(n - 1, k - 2), Choose(n - 1, k - 1), Choose(n - 1, k);
        assert k * c == (n - k) * b && (k - 1) * b == (n - k + 1) * a;
        assert Choose(n, k) == b + c && Choose(n, k - 1) == a + b;
        ChooseArithmetic(n, k, a, b, c);
      }
    }
  }

  lemma ChooseArithmetic(n: int, k: int, a: int, b: int, c: int)
    requires k * c == (n - k) * b && (k - 1) * b == (n - k + 1) * a
    ensures k * (b + c) == (n - k + 1) * (a + b)
  {}

  lemma {:induction false} PowPositive(x: real, k: nat)
    requires 0.0 < x
    ensures 0.0 < Pow(x, k)
  {
    if k > 0 { PowPositive(x, k - 1); var c := MulPos(x, Pow(x, k - 1)); }
  }

  lemma {:induction false} ChoosePositive(n: nat, k: nat)
    requires k <= n
    ensures Choose(n, k) >= 1
  {
    if k > 0 { ChoosePositive(n - 1, k - 1); }
  }

  lemma PmfSign(n: nat, p: real, k: nat)
    requires 0.0 < p < 1.0
    ensures 0.0 <= Pmf(n, p, k) && (k <= n ==> 0.0 < Pmf(n, p, k))
  {
    if k <= n {
      PowPositive(p, k);
      PowPositive(1.0 - p, n - k);
      ChoosePositive(n, k);
      var c := MulPos(Pow(p, k), Pow(1.0 - p, n - k));
      var d := MulPos(Choose(n, k) as real, c);
    }
  }

  /** The multiplicative step of the source: p/q times ((n + 1)/k - 1). */
  function Factor(n: nat, p: real, k: nat): real
    requires k >= 1 && p < 1.0
  {
    var r := p / (1.0 - p);
    r * (n + 1) as real / k as real - r
  }

  lemma FactorMeaning(n: nat, p: real, k: nat)
    requires k >= 1 && p < 1.0
    ensures Mul(Factor(n, p, k), Mul(k as real, 1.0 - p)) == Mul(p, (n - k + 1) as real)
  {
    var q, kr := 1.0 - p, k as real;
    var r := p / q;
    var h := r * (n + 1) as real / kr;
    assert r * q == p;
    assert h * kr == r * (n + 1) as real;
    assert (h - r) * (kr * q) == (h * kr) * q - (r * q) * kr;
    assert (r * (n + 1) as real) * q == (r * q) * (n + 1) as real;
    assert (n - k + 1) as real == (n + 1) as real - kr;
  }

  /** One step of the recurrence turns one probability into the next. */
  lemma PmfStep(n: nat, p: real, k: nat)
    requires 0.0 < p < 1.0 && k >= 1
    ensures Pmf(n, p, k) == Mul(Pmf(n, p, k - 1), Factor(n, p, k))
  {
    FactorMeaning(n, p, k);
    var kq := MulPos(k as real, 1.0 - p);
    hide Factor;
    if k > n + 1 {
      MulFacts(0.0, 0.0, Factor(n, p, k));
    } else if k == n + 1 {
      ZeroFactor(Factor(n, p, k), kq);
      MulFacts(0.0, 0.0, Pmf(n, p, k - 1));
    } else {
      PmfStepInside(n, p, k, Factor(n, p, k));
    }
  }

  lemma PmfStepInside(n: nat, p: real, k: nat, x: real)
    requires 1 <= k <= n && Mul(x, Mul(k as real, 1.0 - p)) == Mul(p, (n - k + 1) as real)
    requires Mul(k as real, 1.0 - p) != 0.0
    ensures Pmf(n, p, k) == Mul(Pmf(n, p, k - 1), x)
  {
    hide Mul, Choose, Pow;
    ChooseRatio(n, k);
    RatioToReal(k, Choose(n, k), n - k + 1, Choose(n, k - 1));
    PowStep(p, k);
    PowStep(1.0 - p, n - k + 1);
    PmfStepArithmetic(Choose(n, k) as real, Choose(n, k - 1) as real, k as real, (n - k + 1) as real, p, 1.0 - p,
                      Pow(p, k - 1), Pow(1.0 - p, n - k), x);
  }

  lemma PowStep(x: real, k: nat)
    requires k >= 1
    ensures Pow(x, k) == Mul(x, Pow(x, k - 1))
  {}

  lemma RatioToReal(k: nat, a: nat, m: nat, b: nat)
    requires k * a == m * b
    ensures Mul(k as real, a as real) == Mul(m as real, b as real)
  {
    assert (k * a) as real == k as real * a as real;
    assert (m * b) as real == m as real * b as real;
  }

  lemma PmfStepArithmetic(a: real, b: real, k: real, m: real, p: real, q: real, s: real, t: real, x: real)
    requires Mul(k, a) == Mul(m, b) && Mul(x, Mul(k, q)) == Mul(p, m) && Mul(k, q) != 0.0
    ensures Mul(a, Mul(Mul(p, s), t)) == Mul(Mul(b, Mul(s, Mul(q, t))), x)
  {
    var w := s * t;
    assert Mul(a, Mul(Mul(p, s), t)) == a * p * w;
    assert Mul(Mul(b, Mul(s, Mul(q, t))), x) == b * q * x * w;
    assert (a * p - b * q * x) * k == 0.0 by {
      assert (a * p) * k == (k * a) * p;
      assert (b * q * x) * k == b * (x * (k * q));
      assert (m * b) * p == b * (p * m);
    }
    ZeroFactor(a * p - b * q * x, k);
  }

  // ----- the probabilities add up to one -----

  /** Pascal's rule for probabilities: the last trial fails or succeeds. */
  lemma PmfPascal(n: nat, p: real, k: nat)
    ensures Pmf(n + 1, p, 0) == Mul(1.0 - p, Pmf(n, p, 0))
    ensures Pmf(n + 1, p, k + 1) == Mul(p, Pmf(n, p, k)) + Mul(1.0 - p, Pmf(n, p, k + 1))
  {
    var q := 1.0 - p;
    PowStep(q, n + 1);
    PascalTerm(1.0, Pow(p, 0), Pow(q, n), q);
    if k < n {
      PowStep(p, k + 1);
      PowStep(q, n - k);
      assert Choose(n + 1, k + 1) == Choose(n, k) + Choose(n, k + 1);
      hide Mul, Pow, Choose;
      PascalInside(Choose(n, k) as real, Choose(n, k + 1) as real, p, q, Pow(p, k), Pow(q, n - k - 1));
    } else if k == n {
      PowStep(p, k + 1);
      ChooseAbove(n, n + 1);
      MulFacts(0.0, 0.0, q);
      assert Choose(n + 1, n + 1) == Choose(n, n);
      hide Pow, Choose;
      PascalTerm(Choose(n, n) as real, Pow(q, 0), Pow(p, n), p);
    } else {
      MulFacts(0.0, 0.0, q);
      MulFacts(0.0, 0.0, p);
    }
  }

  lemma PascalTerm(c: real, s: real, t: real, x: real)
    ensures Mul(c, Mul(s, Mul(x, t))) == Mul(x, Mul(c, Mul(s, t)))
    ensures Mul(c, Mul(Mul(x, t), s)) == Mul(x, Mul(c, Mul(t, s)))
  {}

  lemma PascalInside(a: real, b: real, p: real, q: real, s: real, t: real)
    ensures Mul(a + b, Mul(Mul(p, s), Mul(q, t)))
         == Mul(p, Mul(a, Mul(s, Mul(q, t)))) + Mul(q, Mul(b, Mul(Mul(p, s), t)))
  {}

  lemma {:induction false} CdfPascal(n: nat, p: real, k: nat)
    ensures Cdf(n + 1, p, k + 1) == Mul(p, Cdf(n, p, k)) + Mul(1.0 - p, Cdf(n, p, k + 1))
  {
    hide Mul, Pmf;
    if k == 0 {
      PmfPascal(n, p, 0);
      MulFacts(0.0, 0.0, p);
    } else {
      CdfPascal(n, p, k - 1);
      PmfPascal(n, p, k - 1);
      MulFacts(Cdf(n, p, k - 1), Pmf(n, p, k - 1), p);
      MulFacts(Cdf(n, p, k), Pmf(n, p, k), 1.0 - p);
    }
  }

  /** The binomial theorem. */
  lemma {:induction false} CdfTotal(n: nat, p: real, k: nat)
    requires n < k
    ensures Cdf(n, p, k) == 1.0
  {
    if n > 0 {
      CdfPascal(n - 1, p, k - 1);
      CdfTotal(n - 1, p, k - 1);
      CdfTotal(n - 1, p, k);
      MulOneIs(p);
      MulOneIs(1.0 - p);
      hide Mul;
    } else if k > 1 {
      CdfTotal(0, p, k - 1);
    } else {
      assert Cdf(0, p, 1) == Cdf(0, p, 0) + Pmf(0, p, 0);
    }
  }

  lemma {:induction false} CdfMonotone(n: nat, p: real, j: nat, k: nat)
    requires 0.0 < p < 1.0 && j <= k
    ensures 0.0 <= Cdf(n, p, j) <= Cdf(n, p, k)
    ensures j < k && j <= n ==> Cdf(n, p, j) < Cdf(n, p, k)
  {
    hide Pmf;
    if k > 0 { PmfSign(n, p, k - 1); }
    if j < k {
      CdfMonotone(n, p, j, k - 1);
      if j == k - 1 { PmfSign(n, p, j); }
    } else if k > 0 {
      CdfMonotone(n, p, k - 1, k - 1);
    }
  }

  // ----- the small-mean branch -----

  datatype Option<T> = None | Some(value: T)

  /** One pass of the inner loop: subtract probabilities from u until it drops below the next one. */
  method InvertOnce(n: nat, p: real, qn: real, u0: real) returns (found: Option<nat>)
    requires 0.0 < p < 1.0 && qn == Pow(1.0 - p, n) && 0.0 <= u0
    ensures match found
      case Some(ix) => Cdf(n, p, ix) <= u0 < Cdf(n, p, ix + 1) && ix <= n && ix <= 111
      case None => Cdf(n, p, 112) <= u0
  {
    hide Mul, Pmf, Factor;
    var q := 1.0 - p;
    var r := p / q;
    var g := r * (n + 1) as real;
    var ix: nat, f, u := 0, qn, u0;
    PmfZero(n, p);
    while true
      invariant ix <= 111 && f == Pmf(n, p, ix) && u == u0 - Cdf(n, p, ix) && 0.0 <= u
      decreases 111 - ix
    {
      if u < f {
        if ix > n { CdfTotal(n, p, ix); CdfTotal(n, p, ix + 1); }
        return Some(ix);
      }
      if ix > 110 { return None; }
      u := u - f;
      ix := ix + 1;
      FactorAsComputed(n, p, ix, r, g);
      PmfStep(n, p, ix);
      f := Mul(f, g / ix as real - r);
    }
  }

  lemma FactorAsComputed(n: nat, p: real, k: nat, r: real, g: real)
    requires k >= 1 && p < 1.0 && r == p / (1.0 - p) && g == r * (n + 1) as real
    ensures g / k as real - r == Factor(n, p, k)
  {}

  lemma PmfZero(n: nat, p: real)
    ensures Pmf(n, p, 0) == Pow(1.0 - p, n)
  {}

  /** The value that a draw u inverts to is the only one. */
  lemma InversionUnique(n: nat, p: real, u: real, i: nat, j: nat)
    requires 0.0 < p < 1.0
    requires Cdf(n, p, i) <= u < Cdf(n, p, i + 1) && Cdf(n, p, j) <= u < Cdf(n, p, j + 1)
    ensures i == j
  {
    if i < j { CdfMonotone(n, p, i + 1, j); }
    if j < i { CdfMonotone(n, p, j + 1, i); }
  }

  /** A draw that one pass of the loop can invert. */
  ghost predicate Invertible(n: nat, p: real, u: real) {
    u < Cdf(n, p, 112)
  }

  /** The first pass succeeds for every draw below one exactly when n is at most 111. */
  lemma FirstPassSucceeds(n: nat, p: real)
    requires 0.0 < p < 1.0
    ensures (forall u :: 0.0 <= u < 1.0 ==> Invertible(n, p, u)) <==> n <= 111
  {
    if n <= 111 {
      CdfTotal(n, p, 112);
    } else {
      CdfMonotone(n, p, 112, n + 1);
      CdfTotal(n, p, n + 1);
      assert !Invertible(n, p, Cdf(n, p, 112));
    }
  }

  /** Counting failures instead of successes: the flip for p above one half. */
  lemma PmfFlip(n: nat, p: real, k: nat)
    requires k <= n
    ensures Pmf(n, p, k) == Pmf(n, 1.0 - p, n - k)
  {
    ChooseSymmetric(n, k);
    assert 1.0 - (1.0 - p) == p && n - (n - k) == k;
    hide Choose, Pow, Mul;
    MulFacts(Pow(p, k), Pow(1.0 - p, n - k), 0.0);
  }

  lemma {:induction false} ChooseSymmetric(n: nat, k: nat)
    requires k <= n
    ensures Choose(n, k) == Choose(n, n - k)
  {
    if n > 0 {
      if k == 0 {
        ChooseSymmetric(n - 1, 0);
        ChooseAbove(n - 1, n);
      } else if k == n {
        ChooseSymmetric(n - 1, n - 1);
        ChooseAbove(n - 1, n);
      } else {
        ChooseSymmetric(n - 1, k - 1);
        ChooseSymmetric(n - 1, k);
      }
    }
  }

  /** ... and for the distribution functions. */
  lemma {:induction false} CdfFlip(n: nat, p: real, k: nat)
    requires k <= n + 1
    ensures Cdf(n, 1.0 - p, k) == 1.0 - Cdf(n, p, n + 1 - k)
  {
    hide Pmf;
    if k == 0 {
      CdfTotal(n, p, n + 1);
    } else {
      CdfFlip(n, p, k - 1);
      PmfFlip(n, p, n - (k - 1));
      assert Cdf(n, p, n + 1 - (k - 1)) == Cdf(n, p, n + 1 - k) + Pmf(n, p, n + 1 - k);
    }
  }

  /** Draw u is within reach of one pass: below the probability of the first 112 successes, or of the first
      112 failures when those are the rarer. */
  ghost predicate Usable(n: nat, pp: real, u: real) {
    u < if pp <= 0.5 then Cdf(n, pp, 112) else Cdf(n, 1.0 - pp, 112)
  }

  /** k is what u selects from Binomial(n, pp): counted from below for pp up to one half, and from above
      otherwise. */
  ghost predicate Selects(n: nat, pp: real, u: real, k: nat) {
    if pp <= 0.5 then Cdf(n, pp, k) <= u < Cdf(n, pp, k + 1)
    else 1.0 - Cdf(n, pp, k + 1) <= u < 1.0 - Cdf(n, pp, k)
  }

  /** Inverting at the rarer outcome and counting back selects from the distribution asked for. */
  lemma InvertedSelects(n: nat, pp: real, p: real, u: real, ix: nat, k: nat)
    requires 0.0 < pp < 1.0 && p == (if pp <= 0.5 then pp else 1.0 - pp)
    requires ix <= n && k == if pp <= 0.5 then ix else n - ix
    ensures Cdf(n, p, ix) <= u < Cdf(n, p, ix + 1) <==> Selects(n, pp, u, k)
    ensures Invertible(n, p, u) <==> Usable(n, pp, u)
  {
    if pp > 0.5 {
      CdfFlip(n, pp, ix);
      CdfFlip(n, pp, ix + 1);
    }
  }

  // ----- the generator with its cached set-up -----

  datatype Draw =
    | NotANumber
    | Drawn(k: int)
    | OutOfDraws     // every supplied draw was rejected; the C loop would take another
    | LargeMean      // n * min(p, 1 - p) >= 30: the rejection method, not modelled

  function MinProb(pp: real): real {
    if pp <= 1.0 - pp then pp else 1.0 - pp
  }

  /** The mean that decides between the two branches. */
  function Mean(n: int, pp: real): real {
    n as real * MinProb(pp)
  }

  /** The first of the draws that can be inverted, and what it inverts to. */
  ghost predicate InvertsTo(n: nat, p: real, draws: seq<real>, ix: nat) {
    exists i :: 0 <= i < |draws| && Invertible(n, p, draws[i])
      && (forall j :: 0 <= j < i ==> !Invertible(n, p, draws[j]))
      && Cdf(n, p, ix) <= draws[i] < Cdf(n, p, ix + 1)
  }

  /** The first of the draws within reach selects k. */
  ghost predicate DrawnFrom(n: nat, pp: real, draws: seq<real>, k: nat) {
    exists i :: 0 <= i < |draws| && Usable(n, pp, draws[i])
      && (forall j :: 0 <= j < i ==> !Usable(n, pp, draws[j]))
      && Selects(n, pp, draws[i], k)
  }

  lemma FoundSelects(n: nat, pp: real, p: real, draws: seq<real>, ix: nat, k: nat)
    requires 0.0 < pp < 1.0 && p == (if pp <= 0.5 then pp else 1.0 - pp)
    requires ix <= n && k == (if pp <= 0.5 then ix else n - ix) && InvertsTo(n, p, draws, ix)
    ensures DrawnFrom(n, pp, draws, k)
  {
    hide Cdf, Invertible, Usable, Selects;
    forall i | 0 <= i < |draws| { InvertedSelects(n, pp, p, draws[i], ix, k); }
  }

  lemma RarerOutcome(pp: real)
    ensures MinProb(pp) == if pp <= 0.5 then pp else 1.0 - pp
  {}

  lemma NothingUsable(n: nat, pp: real, p: real, draws: seq<real>)
    requires 0.0 < pp < 1.0 && p == (if pp <= 0.5 then pp else 1.0 - pp)
    requires forall i :: 0 <= i < |draws| ==> !Invertible(n, p, draws[i])
    ensures forall i :: 0 <= i < |draws| ==> !Usable(n, pp, draws[i])
  {
    hide Cdf, Invertible, Usable, Selects;
    forall i | 0 <= i < |draws| { InvertedSelects(n, pp, p, draws[i], 0, if pp <= 0.5 then 0 else n); }
  }

  /** The mean of the rarer outcome is large exactly when both means are. */
  lemma MeanExact(n: nat, pp: real)
    requires 0.0 < pp < 1.0
    ensures Mean(n, pp) >= 30.0 <==> n as real * pp >= 30.0 && n as real * (1.0 - pp) >= 30.0
  {
    RarerOutcome(pp);
    hide MinProb;
    var c := if pp <= 0.5 then 1.0 - 2.0 * pp else 2.0 * pp - 1.0;
    var d := MulNonNeg(n as real, c);
  }

  class BinomialGenerator {
    var psave: real
    var nsave: int
    var qn: real

    /** The cached power belongs to the cached parameters. */
    ghost predicate Valid()
      reads this
    {
      (psave == -1.0 && nsave == -1)
      || (0.0 < psave < 1.0 && 0 < nsave
          && (Mean(nsave, psave) < 30.0 ==> qn == Pow(1.0 - MinProb(psave), nsave)))
    }

    constructor ()
      ensures Valid()
    {
      psave, nsave, qn := -1.0, -1, 0.0;
    }

    /** The result depends on the arguments and the draws, never on what earlier calls left behind. */
    method Rbinom(nin: real, pp: real, draws: seq<real>) returns (d: Draw)
      requires Valid() && forall i :: 0 <= i < |draws| ==> 0.0 <= draws[i]
      modifies this
      ensures Valid()
      ensures d == NotANumber <==> (nin.Floor as real != nin || nin < 0.0 || pp < 0.0 || pp > 1.0)
      ensures d != NotANumber && (nin == 0.0 || pp == 0.0) ==> d == Drawn(0)
      ensures d != NotANumber && pp == 1.0 ==> d == Drawn(nin.Floor)
      ensures d != NotANumber && 0.0 < nin && 0.0 < pp < 1.0 ==>
        (var n := nin.Floor;
         && (d.LargeMean? <==> n as real * pp >= 30.0 && n as real * (1.0 - pp) >= 30.0)
         && (d.OutOfDraws? ==> forall i :: 0 <= i < |draws| ==> !Usable(n, pp, draws[i]))
         && (d.Drawn? ==> 0 <= d.k <= n && DrawnFrom(n, pp, draws, d.k)))
    {
      hide Mul, Cdf, Invertible, InvertsTo, Pow, Mean, MinProb, Usable, Selects, DrawnFrom;
      var r := (nin + 0.5).Floor as real;
      FloorHalf(nin);
      if r != nin { return NotANumber; }
      if r < 0.0 || pp < 0.0 || pp > 1.0 { return NotANumber; }
      if r == 0.0 || pp == 0.0 { return Drawn(0); }
      if pp == 1.0 { return Drawn(r.Floor); }
      var n := r.Floor;
      var p := MinProb(pp);
      var q := 1.0 - p;
      var np := Mean(n, pp);
      if pp != psave || n != nsave {
        psave := pp;
        nsave := n;
        if np < 30.0 { qn := Pow(q, n); }
      }
      MeanExact(n, pp);
      RarerOutcome(pp);
      if !(np < 30.0) { return LargeMean; }
      var found := InvertDraws(n, p, qn, draws);
      if found == None {
        NothingUsable(n, pp, p, draws);
        return OutOfDraws;
      }
      var ix: int := found.value;
      if psave > 0.5 { ix := n - ix; }
      FoundSelects(n, pp, p, draws, found.value, ix);
      return Drawn(ix);
    }
  }

  /** The outer loop: one draw a pass until one can be inverted. */
  method InvertDraws(n: nat, p: real, qn: real, draws: seq<real>) returns (found: Option<nat>)
    requires 0.0 < p < 1.0 && qn == Pow(1.0 - p, n) && forall i :: 0 <= i < |draws| ==> 0.0 <= draws[i]
    ensures match found
      case Some(ix) => ix <= n && InvertsTo(n, p, draws, ix)
      case None => forall i :: 0 <= i < |draws| ==> !Invertible(n, p, draws[i])
  {
    hide Mul, Cdf, Invertible, Pow;
    var i := 0;
    while i < |draws|
      invariant 0 <= i <= |draws| && forall j :: 0 <= j < i ==> !Invertible(n, p, draws[j])
    {
      found := InvertOnce(n, p, qn, draws[i]);
      InvertibleMeaning(n, p, draws[i], found);
      if found.Some? { return; }
      i := i + 1;
    }
    found := None;
  }

  lemma FloorHalf(x: real)
    ensures (x + 0.5).Floor as real == x <==> x.Floor as real == x
  {
    var y, z := (x + 0.5).Floor, x.Floor;
    assert y as real <= x + 0.5 < y as real + 1.0 && z as real <= x < z as real + 1.0;
    if y as real == x { assert z == y; }
    if z as real == x { assert y == z; }
  }

  lemma InvertibleMeaning(n: nat, p: real, u: real, found: Option<nat>)
    requires 0.0 < p < 1.0
    requires match found
      case Some(ix) => Cdf(n, p, ix) <= u < Cdf(n, p, ix + 1) && ix <= 111
      case None => Cdf(n, p, 112) <= u
    ensures found.Some? <==> Invertible(n, p, u)
  {
    if found.Some? { CdfMonotone(n, p, found.value + 1, 112); }
  }

  // ----- the explicit evaluation inside the rejection method -----

  /** f becomes the ratio of the probabilities of ix and of the mode m. */
  method ExplicitRatio(n: nat, p: real, m: nat, ix: nat) returns (f: real)
    requires 0.0 < p < 1.0 && m <= n
    ensures Mul(f, Pmf(n, p, m)) == Pmf(n, p, ix)
    ensures 0.0 <= f
  {
    hide Mul, Pmf, Factor;
    var q := 1.0 - p;
    var r := p / q;
    var g := r * (n + 1) as real;
    f := 1.0;
    MulOneIs(Pmf(n, p, m));
    MulOneIs(Pmf(n, p, ix));
    if m < ix {
      var i := m + 1;
      while i <= ix
        invariant m + 1 <= i <= ix + 1 && Mul(f, Pmf(n, p, m)) == Pmf(n, p, i - 1)
      {
        FactorAsComputed(n, p, i, r, g);
        PmfStep(n, p, i);
        ghost var before := f;
        f := Mul(f, g / i as real - r);
        MulFacts(before, Factor(n, p, i), Pmf(n, p, m));
        MulFacts(Factor(n, p, i), before, Pmf(n, p, m));
        MulFacts(Pmf(n, p, i - 1), Factor(n, p, i), 0.0);
        i := i + 1;
      }
    } else if m != ix {
      var i := ix + 1;
      while i <= m
        invariant ix + 1 <= i <= m + 1 && Mul(f, Pmf(n, p, i - 1)) == Pmf(n, p, ix)
      {
        FactorAsComputed(n, p, i, r, g);
        PmfStep(n, p, i);
        FactorPositive(n, p, i);
        ghost var before := f;
        f := Quot(f, g / i as real - r);
        DivideStep(before, Factor(n, p, i), Pmf(n, p, i - 1), Pmf(n, p, i));
        i := i + 1;
      }
    }
    PmfSign(n, p, m);
    PmfSign(n, p, ix);
    QuotientNonNegative(f, Pmf(n, p, m));
  }

  lemma MulOneIs(a: real)
    ensures Mul(1.0, a) == a && Mul(a, 1.0) == a
  {}

  lemma DivideStep(f: real, x: real, a: real, b: real)
    requires x != 0.0 && b == Mul(a, x)
    ensures Mul(Quot(f, x), b) == Mul(f, a)
  {
    var h := Quot(f, x);
    assert h * x == f;
    assert h * (a * x) == (h * x) * a;
  }

  lemma FactorPositive(n: nat, p: real, k: nat)
    requires 0.0 < p < 1.0 && 1 <= k <= n
    ensures 0.0 < Factor(n, p, k)
  {
    FactorMeaning(n, p, k);
    hide Factor;
    var kq := MulPos(k as real, 1.0 - p);
    var pm := MulPos(p, (n - k + 1) as real);
    var x := Factor(n, p, k);
    if x <= 0.0 { var c := MulNonNeg(-x, kq); }
  }

  lemma QuotientNonNegative(f: real, b: real)
    requires 0.0 < b && 0.0 <= Mul(f, b)
    ensures 0.0 <= f
  {
    if f < 0.0 { var c := MulPos(-f, b); }
  }
}
