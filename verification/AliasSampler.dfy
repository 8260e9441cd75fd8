/** Walker's alias method, src/sampling.c: two stacks of sticks pair small probabilities with large
    ones, in place, until every bin holds at most two items. */
module AliasSampler {
  import Interpolation
  import opened Vectors

  const PLFIT_SUCCESS := 0
  const PLFIT_EINVAL := 2
  const LONG_MAX: nat := 0x7FFF_FFFF_FFFF_FFFF

  // ----- sums -----

  function Sum(v: seq<real>): real {
    if |v| == 0 then 0.0 else Sum(v[..|v|-1]) + v[|v|-1]
  }

  lemma {:induction false} SumUpdate(v: seq<real>, k: nat, a: real)
    requires k < |v|
    ensures Sum(v[k := a]) == Sum(v) - v[k] + a
  {
    var n := |v|;
    if k == n - 1 {
      assert v[k := a][..n-1] == v[..n-1];
    } else {
      SumUpdate(v[..n-1], k, a);
      assert v[k := a][..n-1] == v[..n-1][k := a];
    }
  }

  lemma {:induction false} SumZero(v: seq<real>)
    requires forall i :: 0 <= i < |v| ==> v[i] == 0.0
    ensures Sum(v) == 0.0
  {
    if |v| > 0 { SumZero(v[..|v|-1]); }
  }

  /** Terms of one sign that add up to zero are all zero. */
  lemma {:induction false} SumOfOneSign(v: seq<real>, k: nat)
    requires k < |v| && Sum(v) == 0.0
    requires (forall i :: 0 <= i < |v| ==> 0.0 <= v[i]) || (forall i :: 0 <= i < |v| ==> v[i] <= 0.0)
    ensures v[k] == 0.0
  {
    SumUpdate(v, k, 0.0);
    SumSign(v[k := 0.0]);
  }

  lemma {:induction false} SumSign(v: seq<real>)
    ensures (forall i :: 0 <= i < |v| ==> 0.0 <= v[i]) ==> 0.0 <= Sum(v)
    ensures (forall i :: 0 <= i < |v| ==> v[i] <= 0.0) ==> Sum(v) <= 0.0
  {
    if |v| > 0 { SumSign(v[..|v|-1]); }
  }

  lemma {:induction false} SumScaled(v: seq<real>, c: real, w: seq<real>)
    requires |w| == |v| && forall i :: 0 <= i < |v| ==> w[i] == Mul(v[i], c)
    ensures Sum(w) == Mul(Sum(v), c)
  {
    var n := |v|;
    if n > 0 {
      SumScaled(v[..n-1], c, w[..n-1]);
      MulFacts(Sum(v[..n-1]), v[n-1], c);
      hide Mul;
    } else {
      MulFacts(0.0, 0.0, c);
    }
  }

  lemma {:induction false} SumMinusOne(v: seq<real>, w: seq<real>)
    requires |w| == |v| && forall i :: 0 <= i < |v| ==> w[i] == v[i] - 1.0
    ensures Sum(w) == Sum(v) - |v| as real
  {
    if |v| > 0 { SumMinusOne(v[..|v|-1], w[..|v|-1]); }
  }

  lemma {:induction false} SumAdd(a: seq<real>, b: seq<real>, c: seq<real>)
    requires |a| == |b| == |c| && forall i :: 0 <= i < |a| ==> c[i] == a[i] + b[i]
    ensures Sum(c) == Sum(a) + Sum(b)
  {
    var n := |a|;
    if n > 0 { SumAdd(a[..n-1], b[..n-1], c[..n-1]); }
  }

  // ----- the balance of probability mass -----

  /** What bin j gives away to item i once the bin is finished. */
  ghost function Donations(probs: seq<real>, indexes: seq<nat>, done: seq<bool>, i: nat): (v: seq<real>)
    requires |probs| == |indexes| == |done|
    ensures |v| == |probs|
  {
    seq(|probs|, j requires 0 <= j < |probs| => if done[j] && indexes[j] == i then 1.0 - probs[j] else 0.0)
  }

  /** What the unfinished bins hold beyond one. */
  ghost function Excess(probs: seq<real>, done: seq<bool>): (v: seq<real>)
    requires |probs| == |done|
    ensures |v| == |probs|
  {
    seq(|probs|, j requires 0 <= j < |probs| => if done[j] then 0.0 else probs[j] - 1.0)
  }

  /** Every item still has its target mass: its own stick plus what finished bins gave it. */
  ghost predicate Balanced(q: seq<real>, probs: seq<real>, indexes: seq<nat>, done: seq<bool>) {
    && |q| == |probs| == |indexes| == |done|
    && (forall i :: 0 <= i < |q| ==> probs[i] + Sum(Donations(probs, indexes, done, i)) == q[i])
    && Sum(Excess(probs, done)) == 0.0
  }

  /** One pairing: stick s is finished and its gap is filled from stick l. */
  lemma PairStep(q: seq<real>, probs: seq<real>, indexes: seq<nat>, done: seq<bool>, s: nat, l: nat)
    requires Balanced(q, probs, indexes, done) && s < |q| && l < |q| && s != l && !done[s] && !done[l]
    ensures Balanced(q, probs[l := probs[l] + probs[s] - 1.0], indexes[s := l], done[s := true])
  {
    forall i | 0 <= i < |q|
      ensures probs[l := probs[l] + probs[s] - 1.0][i]
              + Sum(Donations(probs[l := probs[l] + probs[s] - 1.0], indexes[s := l], done[s := true], i)) == q[i]
    {
      PairDonations(probs, indexes, done, s, l, i);
    }
    PairExcess(probs, done, s, l);
  }

  lemma PairDonations(probs: seq<real>, indexes: seq<nat>, done: seq<bool>, s: nat, l: nat, i: nat)
    requires |probs| == |indexes| == |done|
    requires s < |probs| && l < |probs| && s != l && !done[s] && !done[l]
    ensures Sum(Donations(probs[l := probs[l] + probs[s] - 1.0], indexes[s := l], done[s := true], i))
         == Sum(Donations(probs, indexes, done, i)) + if l == i then 1.0 - probs[s] else 0.0
  {
    var v := Donations(probs, indexes, done, i);
    var a := if l == i then 1.0 - probs[s] else 0.0;
    assert Donations(probs[l := probs[l] + probs[s] - 1.0], indexes[s := l], done[s := true], i) == v[s := a];
    SumUpdate(v, s, a);
  }

  lemma PairExcess(probs: seq<real>, done: seq<bool>, s: nat, l: nat)
    requires |probs| == |done| && s < |probs| && l < |probs| && s != l && !done[s] && !done[l]
    ensures Sum(Excess(probs[l := probs[l] + probs[s] - 1.0], done[s := true])) == Sum(Excess(probs, done))
  {
    var e := Excess(probs, done);
    var a := probs[l] + probs[s] - 1.0;
    assert Excess(probs[l := a], done[s := true]) == e[s := 0.0][l := a - 1.0];
    SumUpdate(e, s, 0.0);
    SumUpdate(e[s := 0.0], l, a - 1.0);
  }

  /** The two stacks: every unfinished bin below one is on the short stack, every one above on the long. */
  ghost predicate Stacked(probs: seq<real>, done: seq<bool>, shorts: seq<nat>, longs: seq<nat>) {
    && |probs| == |done|
    && (forall a :: 0 <= a < |shorts| ==> shorts[a] < |probs| && !done[shorts[a]] && probs[shorts[a]] < 1.0)
    && (forall a :: 0 <= a < |longs| ==> longs[a] < |probs| && !done[longs[a]] && 1.0 <= probs[longs[a]])
    && (forall a, b :: 0 <= a < b < |shorts| ==> shorts[a] != shorts[b])
    && (forall a, b :: 0 <= a < b < |longs| ==> longs[a] != longs[b])
    && (forall j :: 0 <= j < |probs| && !done[j] && probs[j] < 1.0 ==> j in shorts)
    && (forall j :: 0 <= j < |probs| && !done[j] && 1.0 < probs[j] ==> j in longs)
  }

  /** When one stack is empty, every unfinished bin holds exactly one, and no short stick is left. */
  lemma NothingLeft(q: seq<real>, probs: seq<real>, indexes: seq<nat>, done: seq<bool>, shorts: seq<nat>,
                    longs: seq<nat>)
    requires Balanced(q, probs, indexes, done) && Stacked(probs, done, shorts, longs)
    requires |shorts| == 0 || |longs| == 0
    ensures forall j :: 0 <= j < |probs| && !done[j] ==> probs[j] == 1.0
    ensures |shorts| == 0
  {
    var e := Excess(probs, done);
    if |shorts| > 0 { assert probs[shorts[0]] < 1.0; }
    forall j | 0 <= j < |probs| && !done[j]
      ensures probs[j] == 1.0
    {
      SumOfOneSign(e, j);
    }
  }

  /** The mass of item i in the finished table, all bins counted. */
  function Mass(probs: seq<real>, indexes: seq<nat>, i: nat): real
    requires |probs| == |indexes| && i < |probs|
  {
    probs[i] + Sum(Aliased(probs, indexes, i))
  }

  function Aliased(probs: seq<real>, indexes: seq<nat>, i: nat): (v: seq<real>)
    requires |probs| == |indexes|
    ensures |v| == |probs|
  {
    seq(|probs|, j requires 0 <= j < |probs| => if indexes[j] == i then 1.0 - probs[j] else 0.0)
  }

  /** Bins that hold exactly one give nothing away, whatever index they carry. */
  lemma BalancedIsMass(q: seq<real>, probs: seq<real>, indexes: seq<nat>, done: seq<bool>, i: nat)
    requires Balanced(q, probs, indexes, done) && i < |q|
    requires forall j :: 0 <= j < |probs| && !done[j] ==> probs[j] == 1.0
    ensures Mass(probs, indexes, i) == q[i]
  {
    assert Donations(probs, indexes, done, i) == Aliased(probs, indexes, i);
  }

  // ----- the loops -----

  function CountBelow(v: seq<real>): (c: nat)
    ensures c <= |v|
  {
    if |v| == 0 then 0 else CountBelow(v[..|v|-1]) + if v[|v|-1] < 1.0 then 1 else 0
  }

  function CountAbove(v: seq<real>): (c: nat)
    ensures c <= |v|
  {
    if |v| == 0 then 0 else CountAbove(v[..|v|-1]) + if v[|v|-1] > 1.0 then 1 else 0
  }

  lemma {:induction false} CountPrefix(v: seq<real>, i: nat)
    requires i <= |v|
    ensures CountBelow(v[..i]) <= CountBelow(v) && CountAbove(v[..i]) <= CountAbove(v)
  {
    if i < |v| {
      CountPrefix(v[..|v|-1], i);
      assert v[..|v|-1][..i] == v[..i];
    } else {
      assert v[..i] == v;
    }
  }

  lemma CountStep(v: seq<real>, i: nat)
    requires i < |v|
    ensures CountBelow(v[..i+1]) == CountBelow(v[..i]) + if v[i] < 1.0 then 1 else 0
    ensures CountAbove(v[..i+1]) == CountAbove(v[..i]) + if v[i] > 1.0 then 1 else 0
  {
    assert v[..i+1][..i] == v[..i];
  }

  method SumUp(ps: seq<real>) returns (sum: real)
    ensures sum == Sum(ps)
  {
    sum := 0.0;
    var i := 0;
    while i < |ps|
      invariant 0 <= i <= |ps| && sum == Sum(ps[..i])
    {
      assert ps[..i+1][..i] == ps[..i];
      sum := sum + ps[i];
      i := i + 1;
    }
    assert ps[..i] == ps;
  }

  /** Normalise the weights and count how many sticks start short and long. */
  method Normalise(ps: seq<real>, scale: real, probs: array<real>) returns (numShort: nat, numLong: nat)
    requires probs.Length == |ps|
    modifies probs
    ensures forall i :: 0 <= i < |ps| ==> probs[i] == Mul(ps[i], scale)
    ensures numShort == CountBelow(probs[..]) && numLong == CountAbove(probs[..])
  {
    hide Mul;
    numShort, numLong := 0, 0;
    var i := 0;
    while i < |ps|
      invariant 0 <= i <= |ps|
      invariant forall k :: 0 <= k < i ==> probs[k] == Mul(ps[k], scale)
      invariant numShort == CountBelow(probs[..i]) && numLong == CountAbove(probs[..i])
    {
      ghost var before := probs[..i];
      probs[i] := Mul(ps[i], scale);
      assert probs[..i] == before;
      CountStep(probs[..], i);
      assert probs[..][..i] == probs[..i] && probs[..][..i+1] == probs[..i+1];
      if probs[i] < 1.0 {
        numShort := numShort + 1;
      } else if probs[i] > 1.0 {
        numLong := numLong + 1;
      }
      i := i + 1;
    }
    assert probs[..i] == probs[..];
  }

  /** The stack lists exactly the indices below i that are short (or long), each once. */
  ghost predicate Listed(v: seq<real>, i: nat, stack: seq<nat>, short: bool)
    requires i <= |v|
  {
    && (forall a :: 0 <= a < |stack| ==> stack[a] < i && if short then v[stack[a]] < 1.0 else v[stack[a]] > 1.0)
    && (forall a, b :: 0 <= a < b < |stack| ==> stack[a] != stack[b])
    && (forall j :: 0 <= j < i && (if short then v[j] < 1.0 else v[j] > 1.0) ==> j in stack)
  }

  lemma ListedNone(v: seq<real>)
    ensures Listed(v, 0, [], true) && Listed(v, 0, [], false)
    ensures CountBelow([]) == 0 && CountAbove([]) == 0
  {}

  lemma ListedNext(v: seq<real>, i: nat, stack: seq<nat>, short: bool)
    requires i < |v| && Listed(v, i, stack, short)
    ensures Listed(v, i + 1, if (if short then v[i] < 1.0 else v[i] > 1.0) then stack + [i] else stack, short)
  {
    var next := stack + [i];
    forall j | j in stack ensures j in next {
      var a :| 0 <= a < |stack| && stack[a] == j;
      assert next[a] == j;
    }
    assert next[|stack|] == i;
  }

  /** Put the indices of the short and the long sticks on their stacks. */
  method FillStacks(v: seq<real>, shorts: array<nat>, longs: array<nat>) returns (numShort: nat, numLong: nat)
    requires CountBelow(v) <= shorts.Length && CountAbove(v) <= longs.Length && shorts != longs
    modifies shorts, longs
    ensures numShort <= shorts.Length && numLong <= longs.Length
    ensures Stacked(v, seq(|v|, _ => false), shorts[..numShort], longs[..numLong])
  {
    hide Stacked, Listed, CountBelow, CountAbove;
    numShort, numLong := 0, 0;
    var i := 0;
    ListedNone(v);
    assert shorts[..0] == [] && longs[..0] == [] && v[..0] == [];
    while i < |v|
      invariant 0 <= i <= |v|
      invariant numShort == CountBelow(v[..i]) <= shorts.Length && numLong == CountAbove(v[..i]) <= longs.Length
      invariant Listed(v, i, shorts[..numShort], true)
      invariant Listed(v, i, longs[..numLong], false)
    {
      CountStep(v, i);
      CountPrefix(v, i + 1);
      ghost var s0, l0 := shorts[..numShort], longs[..numLong];
      ListedNext(v, i, s0, true);
      ListedNext(v, i, l0, false);
      if v[i] < 1.0 {
        shorts[numShort] := i;
        numShort := numShort + 1;
        assert shorts[..numShort] == s0 + [i];
      } else if v[i] > 1.0 {
        longs[numLong] := i;
        numLong := numLong + 1;
        assert longs[..numLong] == l0 + [i];
      }
      i := i + 1;
    }
    assert v[..i] == v;
    ListedIsStacked(v, shorts[..numShort], longs[..numLong]);
  }

  lemma ListedIsStacked(v: seq<real>, shorts: seq<nat>, longs: seq<nat>)
    requires Listed(v, |v|, shorts, true) && Listed(v, |v|, longs, false)
    ensures Stacked(v, seq(|v|, _ => false), shorts, longs)
  {}

  lemma PopShort(probs: seq<real>, done: seq<bool>, shorts: seq<nat>, longs: seq<nat>)
    requires Stacked(probs, done, shorts, longs) && |shorts| > 0
    ensures var s := shorts[|shorts|-1];
            s < |probs| && !done[s] && probs[s] < 1.0
            && Stacked(probs, done[s := true], shorts[..|shorts|-1], longs)
  {
    assert shorts == shorts[..|shorts|-1] + [shorts[|shorts|-1]];
  }

  lemma KeepLong(probs: seq<real>, done: seq<bool>, shorts: seq<nat>, longs: seq<nat>, p: real)
    requires Stacked(probs, done, shorts, longs) && |longs| > 0 && 1.0 <= p
    ensures Stacked(probs[longs[|longs|-1] := p], done, shorts, longs)
  {
    var l := longs[|longs|-1];
    assert l in longs;
  }

  lemma MoveLong(probs: seq<real>, done: seq<bool>, shorts: seq<nat>, longs: seq<nat>, p: real)
    requires Stacked(probs, done, shorts, longs) && |longs| > 0 && p < 1.0
    ensures Stacked(probs[longs[|longs|-1] := p], done, shorts + [longs[|longs|-1]], longs[..|longs|-1])
  {
    var l := longs[|longs|-1];
    assert longs == longs[..|longs|-1] + [l];
    var next := shorts + [l];
    forall j | j in shorts ensures j in next {
      var a :| 0 <= a < |shorts| && shorts[a] == j;
      assert next[a] == j;
    }
    assert next[|shorts|] == l;
  }

  /** Popping the short stick, and moving the long one over when it has become short. */
  lemma StackStep(probs: seq<real>, done: seq<bool>, shorts: seq<nat>, longs: seq<nat>)
    requires Stacked(probs, done, shorts, longs) && |shorts| > 0 && |longs| > 0
    ensures var s, l := shorts[|shorts|-1], longs[|longs|-1];
            && s < |probs| == |done| && l < |probs| && !done[s] && !done[l]
            && s != l && probs[s] < 1.0 <= probs[l]
            && (var p := probs[l] + probs[s] - 1.0;
                if p < 1.0
                then Stacked(probs[l := p], done[s := true], shorts[..|shorts|-1] + [l], longs[..|longs|-1])
                else Stacked(probs[l := p], done[s := true], shorts[..|shorts|-1], longs))
  {
    PopShort(probs, done, shorts, longs);
    var s, l := shorts[|shorts|-1], longs[|longs|-1];
    assert probs[s] < 1.0 <= probs[l];
    var p := probs[l] + probs[s] - 1.0;
    if p < 1.0 {
      MoveLong(probs, done[s := true], shorts[..|shorts|-1], longs, p);
    } else {
      KeepLong(probs, done[s := true], shorts[..|shorts|-1], longs, p);
    }
  }

  /** The pairing loop and the two clean-up loops. */
  method PairUp(probs: array<real>, indexes: array<nat>, shorts: array<nat>, longs: array<nat>,
                numShort0: nat, numLong0: nat, ghost q: seq<real>)
    returns (ghost done: seq<bool>)
    requires probs.Length == indexes.Length && shorts != longs && indexes != shorts && indexes != longs
    requires numShort0 <= shorts.Length && numLong0 <= longs.Length
    requires |q| == probs.Length && Balanced(q, probs[..], indexes[..], seq(probs.Length, _ => false))
    requires Stacked(probs[..], seq(probs.Length, _ => false), shorts[..numShort0], longs[..numLong0])
    requires forall j :: 0 <= j < indexes.Length ==> indexes[j] < probs.Length
    modifies probs, indexes, shorts, longs
    ensures Balanced(q, probs[..], indexes[..], done)
    ensures forall j :: 0 <= j < probs.Length ==> if done[j] then probs[j] < 1.0 else probs[j] == 1.0
    ensures forall j :: 0 <= j < indexes.Length ==> indexes[j] < probs.Length
    ensures (forall j :: 0 <= j < probs.Length ==> 0.0 <= old(probs[j])) ==>
              forall j :: 0 <= j < probs.Length ==> 0.0 <= probs[j]
  {
    hide Balanced, Stacked;
    ghost var nonNegative := forall j :: 0 <= j < probs.Length ==> 0.0 <= probs[j];
    var numShort, numLong := numShort0, numLong0;
    done := seq(probs.Length, _ => false);
    while numShort != 0 && numLong != 0
      invariant 0 <= numShort <= shorts.Length && 0 <= numLong <= longs.Length
      invariant |done| == probs.Length == |q|
      invariant Balanced(q, probs[..], indexes[..], done)
      invariant Stacked(probs[..], done, shorts[..numShort], longs[..numLong])
      invariant forall j :: 0 <= j < probs.Length && done[j] ==> probs[j] < 1.0
      invariant forall j :: 0 <= j < indexes.Length ==> indexes[j] < probs.Length
      invariant nonNegative ==> forall j :: 0 <= j < probs.Length ==> 0.0 <= probs[j]
      decreases numShort + numLong
    {
      ghost var p0, i0, d0, s0, l0 := probs[..], indexes[..], done, shorts[..numShort], longs[..numLong];
      StackStep(p0, d0, s0, l0);
      numShort := numShort - 1;
      var shortIndex, longIndex := shorts[numShort], longs[numLong - 1];
      PairStep(q, p0, i0, d0, shortIndex, longIndex);
      indexes[shortIndex] := longIndex;
      probs[longIndex] := (probs[longIndex] + probs[shortIndex]) - 1.0;
      done := done[shortIndex := true];
      assert probs[..] == p0[longIndex := p0[longIndex] + p0[shortIndex] - 1.0];
      assert indexes[..] == i0[shortIndex := longIndex];
      if probs[longIndex] < 1.0 {
        shorts[numShort] := longIndex;
        numShort := numShort + 1;
        numLong := numLong - 1;
        assert shorts[..numShort] == s0[..|s0|-1] + [longIndex] && longs[..numLong] == l0[..|l0|-1];
      } else {
        assert shorts[..numShort] == s0[..|s0|-1] && longs[..numLong] == l0;
      }
    }
    NothingLeft(q, probs[..], indexes[..], done, shorts[..numShort], longs[..numLong]);
    LongsSettled(probs[..], done, shorts[..numShort], longs[..numLong]);
    ghost var settled := probs[..];
    CleanUp(probs, shorts, longs, numShort, numLong);
    assert probs[..] == settled;
  }

  lemma LongsSettled(probs: seq<real>, done: seq<bool>, shorts: seq<nat>, longs: seq<nat>)
    requires Stacked(probs, done, shorts, longs)
    requires forall j :: 0 <= j < |probs| && !done[j] ==> probs[j] == 1.0
    ensures forall a :: 0 <= a < |longs| ==> longs[a] < |probs| && probs[longs[a]] == 1.0
  {}

  /** The two clean-up loops set whatever is still on a stack to one. */
  method CleanUp(probs: array<real>, shorts: array<nat>, longs: array<nat>, numShort0: nat, numLong0: nat)
    requires numShort0 <= shorts.Length && numLong0 <= longs.Length
    requires forall a :: 0 <= a < numShort0 ==> shorts[a] < probs.Length
    requires forall a :: 0 <= a < numLong0 ==> longs[a] < probs.Length
    modifies probs
    ensures forall j :: 0 <= j < probs.Length ==>
              probs[j] == if j in longs[..numLong0] || j in shorts[..numShort0] then 1.0 else old(probs[j])
  {
    var numShort, numLong := numShort0, numLong0;
    while numLong != 0
      invariant 0 <= numLong <= numLong0
      invariant forall j :: 0 <= j < probs.Length ==>
                  probs[j] == if j in longs[numLong..numLong0] then 1.0 else old(probs[j])
    {
      numLong := numLong - 1;
      probs[longs[numLong]] := 1.0;
      assert longs[numLong..numLong0] == [longs[numLong]] + longs[numLong+1..numLong0];
    }
    assert longs[0..numLong0] == longs[..numLong0];
    while numShort != 0
      invariant 0 <= numShort <= numShort0
      invariant forall j :: 0 <= j < probs.Length ==>
                  probs[j] == if j in longs[..numLong0] || j in shorts[numShort..numShort0] then 1.0 else old(probs[j])
    {
      numShort := numShort - 1;
      probs[shorts[numShort]] := 1.0;
      assert shorts[numShort..numShort0] == [shorts[numShort]] + shorts[numShort+1..numShort0];
    }
    assert shorts[0..numShort0] == shorts[..numShort0];
  }

  /** At the start nothing is finished, and the scaled weights add up to the number of bins. */
  lemma InitiallyBalanced(ps: seq<real>, scale: real, q: seq<real>, indexes: seq<nat>)
    requires |q| == |ps| == |indexes| && (|ps| > 0 ==> Mul(Sum(ps), scale) == |ps| as real)
    requires forall i :: 0 <= i < |ps| ==> q[i] == Mul(ps[i], scale)
    ensures Balanced(q, q, indexes, seq(|ps|, _ => false))
  {
    hide Mul;
    var done := seq(|ps|, _ => false);
    if |ps| == 0 { MulFacts(0.0, 0.0, scale); }
    forall i | 0 <= i < |q|
      ensures q[i] + Sum(Donations(q, indexes, done, i)) == q[i]
    {
      SumZero(Donations(q, indexes, done, i));
    }
    SumScaled(ps, scale, q);
    SumMinusOne(q, Excess(q, done));
  }

  /** n times the share of item i in the total weight. */
  function Target(ps: seq<real>, i: nat): real
    requires i < |ps| && Sum(ps) != 0.0
  {
    Mul(ps[i], |ps| as real / Sum(ps))
  }

  lemma ScaleTimesTotal(ps: seq<real>)
    requires Sum(ps) != 0.0
    ensures Mul(Sum(ps), |ps| as real / Sum(ps)) == |ps| as real
  {}

  // ----- the table -----

  /** The table encodes the weights: every item has its target mass, in bins of height one. */
  ghost predicate Encodes(ps: seq<real>, probs: seq<real>, indexes: seq<nat>) {
    && |probs| == |indexes| == |ps|
    && (0 < |ps| ==> Sum(ps) != 0.0)
    && (forall i :: 0 <= i < |ps| ==> Mass(probs, indexes, i) == Target(ps, i))
    && (forall i :: 0 <= i < |ps| ==> indexes[i] < |ps| && probs[i] <= 1.0)
    && (0 < |ps| && 0.0 < Sum(ps) && (forall i :: 0 <= i < |ps| ==> 0.0 <= ps[i]) ==>
          forall i :: 0 <= i < |ps| ==> 0.0 <= probs[i])
  }

  method Build(ps: seq<real>, probs: array<real>, indexes: array<nat>)
    requires probs.Length == indexes.Length == |ps| && (0 < |ps| ==> Sum(ps) != 0.0)
    requires forall j :: 0 <= j < |ps| ==> indexes[j] == 0
    modifies probs, indexes
    ensures Encodes(ps, probs[..], indexes[..])
  {
    hide Mul, Sum, Mass, Balanced, Stacked, CountBelow, CountAbove;
    var n := |ps|;
    var sum := SumUp(ps);
    if n > 0 {
      ScaleTimesTotal(ps);
      sum := n as real / sum;
    }
    var numShort, numLong := Normalise(ps, sum, probs);
    var longSticks := new nat[if numLong > 0 then numLong else 1](_ => 0);
    var shortSticks := new nat[if numShort > 0 then numShort else 1](_ => 0);
    numShort, numLong := FillStacks(probs[..], shortSticks, longSticks);
    ghost var q := probs[..];
    InitiallyBalanced(ps, sum, q, indexes[..]);
    ghost var done := PairUp(probs, indexes, shortSticks, longSticks, numShort, numLong, q);
    forall i | 0 <= i < n ensures Mass(probs[..], indexes[..], i) == Target(ps, i) {
      BalancedIsMass(q, probs[..], indexes[..], done, i);
    }
    if n > 0 && 0.0 < Sum(ps) { ScaledNonNegative(ps, q); }
  }

  class WalkerAliasSampler {
    var numBins: nat
    var indexes: array<nat>
    var probs: array<real>

    constructor ()
      ensures fresh(indexes) && fresh(probs)
    {
      numBins := 0;
      indexes, probs := new nat[0], new real[0];
    }

    /** Every item ends up with n times its share of the total weight. */
    method Init(ps: seq<real>) returns (ret: int)
      requires 0 < |ps| ==> Sum(ps) != 0.0
      modifies this
      ensures ret == if |ps| > LONG_MAX then PLFIT_EINVAL else PLFIT_SUCCESS
      ensures ret == PLFIT_SUCCESS ==>
                numBins == |ps| && fresh(probs) && fresh(indexes) && Encodes(ps, probs[..], indexes[..])
    {
      var n := |ps|;
      if n > LONG_MAX { return PLFIT_EINVAL; }
      numBins := n;
      indexes := new nat[n](_ => 0);
      probs := new real[n](_ => 0.0);
      Build(ps, probs, indexes);
      return PLFIT_SUCCESS;
    }

    /** One item a draw: u picks between the two owners of bin r mod n. */
    method Sample(draws: seq<(real, nat)>, xs: array<nat>)
      requires draws != [] ==> 0 < numBins
      requires probs.Length == indexes.Length == numBins && xs.Length == |draws| && xs != indexes
      requires forall i :: 0 <= i < numBins ==> indexes[i] < numBins
      modifies xs
      ensures forall k :: 0 <= k < |draws| ==>
                xs[k] == Pick(probs[..], indexes[..], draws[k].0, draws[k].1 % numBins) < numBins
    {
      var k := 0;
      while k < |draws|
        invariant 0 <= k <= |draws|
        invariant forall a :: 0 <= a < k ==>
                    xs[a] == Pick(probs[..], indexes[..], draws[a].0, draws[a].1 % numBins) < numBins
      {
        var u, j := draws[k].0, draws[k].1 % numBins;
        xs[k] := if u < probs[j] then j else indexes[j];
        k := k + 1;
      }
    }
  }

  function Pick(probs: seq<real>, indexes: seq<nat>, u: real, j: nat): nat
    requires |probs| == |indexes| && j < |probs|
  {
    if u < probs[j] then j else indexes[j]
  }

  /** The length of the set of u in [0, 1) for which bin j yields item i. */
  ghost function YieldLength(probs: seq<real>, indexes: seq<nat>, i: nat, j: nat): real
    requires |probs| == |indexes| && j < |probs|
  {
    (if j == i then probs[j] else 0.0) + (if indexes[j] == i then 1.0 - probs[j] else 0.0)
  }

  /** ... which is a single interval of that length. */
  lemma YieldInterval(probs: seq<real>, indexes: seq<nat>, i: nat, j: nat) returns (lo: real, hi: real)
    requires |probs| == |indexes| && j < |probs| && 0.0 <= probs[j] <= 1.0
    ensures 0.0 <= lo <= hi <= 1.0 && hi - lo == YieldLength(probs, indexes, i, j)
    ensures forall u :: 0.0 <= u < 1.0 ==> (Pick(probs, indexes, u, j) == i <==> lo <= u < hi)
  {
    lo := if j == i then 0.0 else probs[j];
    hi := if indexes[j] == i then 1.0 else probs[j];
  }

  /** With a uniform bin and a uniform u, item i is drawn with exactly its share of the weights. */
  lemma SamplingIsExact(ps: seq<real>, probs: seq<real>, indexes: seq<nat>, i: nat)
    requires Encodes(ps, probs, indexes) && i < |ps|
    ensures Sum(seq(|ps|, j requires 0 <= j < |ps| => YieldLength(probs, indexes, i, j))) / |ps| as real
         == ps[i] / Sum(ps)
  {
    var n := |ps|;
    var y := seq(n, j requires 0 <= j < n => YieldLength(probs, indexes, i, j));
    var own := seq(n, j requires 0 <= j < n => if j == i then probs[j] else 0.0);
    SumAdd(own, Aliased(probs, indexes, i), y);
    SumUpdate(own, i, 0.0);
    SumZero(own[i := 0.0]);
    assert Sum(y) == Mass(probs, indexes, i) == Target(ps, i);
    CancelCount(ps[i], n as real, Sum(ps), Sum(y));
  }

  /** An item of weight zero is drawn exactly when u is one and the bin's alias is that item: never
      while u stays below one, as the documentation of the uniform draw promises. */
  lemma ZeroWeightDrawn(ps: seq<real>, probs: seq<real>, indexes: seq<nat>, u: real, i: nat, j: nat)
    requires Encodes(ps, probs, indexes) && i < |ps| && j < |ps| && 0.0 <= u <= 1.0
    requires 0.0 < Sum(ps) && (forall k :: 0 <= k < |ps| ==> 0.0 <= ps[k]) && ps[i] == 0.0
    ensures Pick(probs, indexes, u, j) == i <==> u == 1.0 && indexes[j] == i
  {
    var a := Aliased(probs, indexes, i);
    assert Target(ps, i) == 0.0 by { MulFacts(0.0, 0.0, |ps| as real / Sum(ps)); }
    SumSign(a);
    assert probs[i] == 0.0 && Sum(a) == 0.0;
    SumOfOneSign(a, j);
  }

  /** The draw can reach one (its divisor is the largest word), and then it does happen. */
  lemma ZeroWeightDrawnAtOne()
    ensures Encodes([0.0, 1.0], [0.0, 1.0], [1, 0]) && Pick([0.0, 1.0], [1, 0], 1.0, 1) == 0
  {
    var ps, probs, indexes := [0.0, 1.0], [0.0, 1.0], [1, 0];
    SumPair(ps);
    SumPair(Aliased(probs, indexes, 0));
    SumPair(Aliased(probs, indexes, 1));
  }

  lemma SumPair(v: seq<real>)
    requires |v| == 2
    ensures Sum(v) == v[0] + v[1]
  {
    assert Sum(v) == Sum(v[..1]) + v[1];
    assert Sum(v[..1]) == Sum(v[..1][..0]) + v[0];
  }

  lemma CancelCount(p: real, n: real, total: real, y: real)
    requires n != 0.0 && total != 0.0 && y == Mul(p, n / total)
    ensures y / n == p / total
  {
    assert (n / total) * total == n;
    assert y * total == p * n;
    assert (y / n) * n == y;
    assert (p / total) * total == p;
    assert ((y / n) * total - p) * n == 0.0;
  }

  lemma ScaledNonNegative(ps: seq<real>, q: seq<real>)
    requires 0.0 < Sum(ps) && |q| == |ps| && forall i :: 0 <= i < |ps| ==> q[i] == Target(ps, i)
    ensures (forall i :: 0 <= i < |ps| ==> 0.0 <= ps[i]) ==> forall i :: 0 <= i < |ps| ==> 0.0 <= q[i]
  {
    var scale := |ps| as real / Sum(ps);
    assert 0.0 <= scale by { assert scale * Sum(ps) == |ps| as real; QuotientSign(scale, Sum(ps)); }
    forall i | 0 <= i < |ps| ensures 0.0 <= ps[i] ==> 0.0 <= q[i] {
      if 0.0 <= ps[i] { var c := Interpolation.MulNonNeg(ps[i], scale); }
    }
  }

  lemma QuotientSign(a: real, b: real)
    requires 0.0 < b && 0.0 <= a * b
    ensures 0.0 <= a
  {
    if a < 0.0 { var c := Interpolation.MulPos(-a, b); }
  }
}
