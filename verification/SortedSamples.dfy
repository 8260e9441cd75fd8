/** Sorted samples and the array of pointers to their distinct values; src/plfit.c. */
module SortedSamples {

  ghost predicate Sorted(xs: seq<real>) {
    forall i, j :: 0 <= i <= j < |xs| ==> xs[i] <= xs[j]
  }

  /** i is the first element of a block of equal ones. */
  predicate IsBlockStart(xs: seq<real>, i: int) {
    0 <= i < |xs| && (i == 0 || xs[i - 1] != xs[i])
  }

  /** How many of the first hi samples are at least x. */
  function CountAtLeast(xs: seq<real>, x: real, hi: nat): nat
    requires hi <= |xs|
  {
    if hi == 0 then 0 else CountAtLeast(xs, x, hi - 1) + (if x <= xs[hi - 1] then 1 else 0)
  }

  function NumAtLeast(xs: seq<real>, x: real): nat {
    CountAtLeast(xs, x, |xs|)
  }

  /** The positions of the samples below x. */
  ghost function Smaller(xs: seq<real>, x: real): set<int> {
    set j | 0 <= j < |xs| && xs[j] < x
  }

  /** Every sample is either below x or counted. */
  lemma {:induction false} SmallerCount(xs: seq<real>, x: real, hi: nat)
    requires hi <= |xs|
    ensures |set j | 0 <= j < hi && xs[j] < x| == hi - CountAtLeast(xs, x, hi)
    ensures hi == |xs| ==> |Smaller(xs, x)| == |xs| - NumAtLeast(xs, x)
  {
    if hi > 0 {
      SmallerCount(xs, x, hi - 1);
      var before := set j | 0 <= j < hi - 1 && xs[j] < x;
      assert (set j | 0 <= j < hi && xs[j] < x) == if xs[hi - 1] < x then before + {hi - 1} else before;
    }
  }

  lemma {:induction false} CountFrom(xs: seq<real>, i: nat, x: real, hi: nat)
    requires Sorted(xs) && i <= hi <= |xs|
    requires i < |xs| ==> x <= xs[i]
    requires i > 0 ==> xs[i - 1] < x
    ensures CountAtLeast(xs, x, hi) == hi - i
  {
    if i < hi {
      CountFrom(xs, i, x, hi - 1);
    } else if i > 0 {
      CountNone(xs, x, i);
    }
  }

  lemma {:induction false} CountNone(xs: seq<real>, x: real, hi: nat)
    requires Sorted(xs) && 0 < hi <= |xs| && xs[hi - 1] < x
    ensures CountAtLeast(xs, x, hi) == 0
  {
    if hi > 1 { CountNone(xs, x, hi - 1); }
  }

  /** From a block start to the end lie exactly the samples that are at least its value; from any other
      element on, fewer. */
  lemma TailIsCount(xs: seq<real>, i: nat)
    requires Sorted(xs) && i < |xs|
    ensures |xs| - i == NumAtLeast(xs, xs[i]) <==> IsBlockStart(xs, i)
  {
    if IsBlockStart(xs, i) {
      CountFrom(xs, i, xs[i], |xs|);
    } else {
      CountFromInside(xs, i, |xs|);
    }
  }

  lemma {:induction false} CountFromInside(xs: seq<real>, i: nat, hi: nat)
    requires Sorted(xs) && 0 < i < |xs| && xs[i - 1] == xs[i] && i <= hi <= |xs|
    ensures CountAtLeast(xs, xs[i], hi) > hi - i
  {
    if i < hi { CountFromInside(xs, i, hi - 1); }
  }

  // ----- unique_element_pointers -----

  /** A C pointer into the sample array. */
  datatype Pointer = Null | To(index: nat)

  /** Positions of the block starts among the first hi samples. */
  function BlockStarts(xs: seq<real>, hi: nat): (r: seq<nat>)
    requires hi <= |xs|
    ensures |r| <= hi && forall k :: 0 <= k < |r| ==> r[k] < hi
  {
    if hi == 0 then []
    else BlockStarts(xs, hi - 1) + if IsBlockStart(xs, hi - 1) then [hi - 1] else []
  }

  function Uniques(xs: seq<real>): seq<nat> {
    BlockStarts(xs, |xs|)
  }

  /** Exactly the block starts, in increasing order. */
  lemma {:induction false} BlockStartsExact(xs: seq<real>, hi: nat)
    requires hi <= |xs|
    ensures var r := BlockStarts(xs, hi);
      && (forall i :: i in r <==> i < hi && IsBlockStart(xs, i))
      && (forall j, k :: 0 <= j < k < |r| ==> r[j] < r[k])
      && (hi > 0 ==> |r| > 0 && r[0] == 0)
  {
    if hi > 0 { BlockStartsExact(xs, hi - 1); }
  }

  /** Each sample value occurs at exactly one of the unique positions, the first one that holds it, and
      the values increase strictly. */
  lemma UniquesExact(xs: seq<real>)
    requires Sorted(xs)
    ensures var us := Uniques(xs);
      && (forall j, k :: 0 <= j < k < |us| ==> us[j] < us[k] && xs[us[j]] < xs[us[k]])
      && (forall i :: 0 <= i < |xs| ==> exists k :: 0 <= k < |us| && us[k] <= i && xs[us[k]] == xs[i])
      && (forall k :: 0 <= k < |us| ==> |xs| - us[k] == NumAtLeast(xs, xs[us[k]]))
  {
    var us := Uniques(xs);
    forall j, k | 0 <= j < k < |us| ensures us[j] < us[k] && xs[us[j]] < xs[us[k]] {
      UniquesIncrease(xs, j, k);
    }
    forall i | 0 <= i < |xs| ensures exists k :: 0 <= k < |us| && us[k] <= i && xs[us[k]] == xs[i] {
      FindBlock(xs, i);
    }
    forall k | 0 <= k < |us| ensures |xs| - us[k] == NumAtLeast(xs, xs[us[k]]) {
      UniqueIsStart(xs, k);
      TailIsCount(xs, us[k]);
    }
  }

  lemma UniqueIsStart(xs: seq<real>, k: nat)
    requires k < |Uniques(xs)|
    ensures IsBlockStart(xs, Uniques(xs)[k])
  {
    BlockStartsExact(xs, |xs|);
    assert Uniques(xs)[k] in Uniques(xs);
  }

  lemma UniquesIncrease(xs: seq<real>, j: nat, k: nat)
    requires Sorted(xs) && j < k < |Uniques(xs)|
    ensures Uniques(xs)[j] < Uniques(xs)[k] && xs[Uniques(xs)[j]] < xs[Uniques(xs)[k]]
  {
    BlockStartsExact(xs, |xs|);
    UniqueIsStart(xs, k);
    var a, b := Uniques(xs)[j], Uniques(xs)[k];
    assert xs[a] <= xs[b - 1] < xs[b];
  }

  lemma {:induction false} FindBlock(xs: seq<real>, i: nat)
    requires i < |xs|
    ensures exists k :: 0 <= k < |Uniques(xs)| && Uniques(xs)[k] <= i && xs[Uniques(xs)[k]] == xs[i]
  {
    BlockStartsExact(xs, |xs|);
    if IsBlockStart(xs, i) {
      assert i in Uniques(xs);
    } else {
      FindBlock(xs, i - 1);
    }
  }

  function Pointers(us: seq<nat>): seq<Pointer> {
    seq(|us|, k requires 0 <= k < |us| => To(us[k]))
  }

  /** The growing array: 15 slots, then twice as many plus one, always with room for the guard. */
  method UniqueElementPointers(xs: seq<real>) returns (result: array<Pointer>, length: nat)
    ensures fresh(result) && length == |Uniques(xs)| < result.Length
    ensures result[..length] == Pointers(Uniques(xs)) && result[length] == Null
  {
    if |xs| == 0 {
      result := new Pointer[1](_ => Null);
      return result, 0;
    }
    var numElts := 15;
    result := new Pointer[numElts + 1](_ => Null);
    var prevX := xs[0];
    result[0] := To(0);
    var used := 1;
    var ptr := 1;
    while ptr < |xs|
      invariant 1 <= ptr <= |xs| && prevX == xs[ptr - 1]
      invariant fresh(result) && result.Length == numElts + 1 && used <= numElts
      invariant used == |BlockStarts(xs, ptr)| && result[..used] == Pointers(BlockStarts(xs, ptr))
    {
      if xs[ptr] == prevX {
        ptr := ptr + 1;
        continue;
      }
      if used >= numElts {
        numElts := numElts * 2 + 1;
        var tmp := new Pointer[numElts + 1](_ => Null);
        forall k | 0 <= k < result.Length { tmp[k] := result[k]; }
        assert tmp[..used] == result[..used];
        result := tmp;
      }
      result[used] := To(ptr);
      used := used + 1;
      prevX := xs[ptr];
      ptr := ptr + 1;
    }
    length := used;
    result[used] := Null;
  }
}
