/** The untempered Mersenne Twister of src/mt.c: a block of 624 words is twisted in place, and must
    deliver the word-at-a-time recurrence ([rand.eng.mers] of ISO C++, without tempering). */
module MersenneTwister {
  const LEN: nat := 624
  const IA: nat := 397
  const IB: nat := 227

  /** TWIST: the top bit of one word and the rest of the next. */
  function Twist(hi: bv32, lo: bv32): bv32 {
    (hi & 0x8000_0000) | (lo & 0x7FFF_FFFF)
  }

  function Magic(s: bv32): bv32 {
    (s & 1) * 0x9908_B0DF
  }

  function Mix(far: bv32, hi: bv32, lo: bv32): bv32 {
    var s := Twist(hi, lo);
    far ^ (s >> 1) ^ Magic(s)
  }

  /** The word that TWIST makes has the top bit of hi and the other 31 bits of lo. */
  lemma TwistBits(hi: bv32, lo: bv32)
    ensures Twist(hi, lo) >> 31 == hi >> 31
    ensures Twist(hi, lo) & 0x7FFF_FFFF == lo & 0x7FFF_FFFF
  {}

  /** The constant enters exactly when the last bit is set. */
  lemma MagicBits(s: bv32)
    ensures Magic(s) == if s & 1 == 1 then 0x9908_B0DF else 0
  {
    OneBit(s);
  }

  /** One word of the recurrence: the far word, changed by the twisted one shifted down and by the constant. */
  lemma MixParts(far: bv32, hi: bv32, lo: bv32, s: bv32)
    requires s == Twist(hi, lo)
    ensures s & 1 == 1 ==> Mix(far, hi, lo) == far ^ (s >> 1) ^ 0x9908_B0DF
    ensures s & 1 != 1 ==> Mix(far, hi, lo) == far ^ (s >> 1)
  {
    MagicBits(s);
  }

  lemma OneBit(s: bv32)
    ensures s & 1 == 0 || s & 1 == 1
  {}

  /** The k-th word of the infinite stream that grows from 624 seed words. */
  ghost function Word(seed: seq<bv32>, k: nat): bv32
    requires |seed| == LEN
  {
    if k < LEN then seed[k]
    else Mix(Word(seed, k - IB), Word(seed, k - LEN), Word(seed, k - LEN + 1))
  }

  /** Words base .. base + 623 of the stream. */
  ghost predicate Block(seed: seq<bv32>, base: nat, b: seq<bv32>)
    requires |seed| == LEN
  {
    |b| == LEN && forall i :: 0 <= i < LEN ==> b[i] == Word(seed, base + i)
  }

  /** The recurrence, counted from the start of a block. */
  lemma Recurrence(seed: seq<bv32>, base: nat, i: nat)
    requires |seed| == LEN
    ensures Word(seed, base + LEN + i)
         == Mix(Word(seed, base + (i + IA)), Word(seed, base + i), Word(seed, base + (i + 1)))
  {
    hide Mix;
    var k := base + LEN + i;
    assert k - IB == base + (i + IA) && k - LEN == base + i && k - LEN + 1 == base + (i + 1);
  }

  /** The stream only depends on its last 624 words: restarted from any block, it goes on unchanged. */
  lemma {:induction false} Restart(seed: seq<bv32>, base: nat, b: seq<bv32>, k: nat)
    requires |seed| == LEN && Block(seed, base, b)
    ensures Word(b, k) == Word(seed, base + k)
  {
    hide Mix;
    if k >= LEN {
      Restart(seed, base, b, k - IB);
      Restart(seed, base, b, k - LEN);
      Restart(seed, base, b, k - LEN + 1);
      assert base + (k - IB) == base + k - IB && base + (k - LEN) == base + k - LEN;
    }
  }

  class Rng {
    /** Byte offset of the next word; 2496 when the block is used up. */
    var index: int
    const buffer: array<bv32>
    /** The seed words and the number of words drawn since. */
    ghost var seed: seq<bv32>
    ghost var drawn: nat

    ghost predicate Valid()
      reads this, buffer
    {
      && buffer.Length == LEN && |seed| == LEN
      && 0 <= index <= 4 * LEN && index % 4 == 0
      && drawn >= index / 4
      && Block(seed, drawn - index / 4, buffer[..])
    }

    /** The words still to come. */
    ghost function Future(k: nat): bv32
      requires Valid()
      reads this, buffer
    {
      Word(seed, drawn + k)
    }

    /** Seeded with the given words (the two calls of rand() for each are outside the model). */
    constructor FromWords(words: seq<bv32>)
      requires |words| == LEN
      ensures Valid() && seed == words && drawn == 0 && index == 0 && fresh(buffer)
    {
      buffer := new bv32[LEN](i requires 0 <= i < LEN => words[i]);
      index := 0;
      seed, drawn := words, 0;
    }

    /** The next block, written over the old one, word by word. */
    method TwistBlock()
      requires Valid() && index == 4 * LEN
      modifies buffer
      ensures Block(seed, drawn, buffer[..])
    {
      hide Mix, Word;
      ghost var base := drawn - LEN;
      var i := 0;
      while i < IB
        invariant 0 <= i <= IB
        invariant forall j :: 0 <= j < i ==> buffer[j] == Word(seed, drawn + j)
        invariant forall j :: i <= j < LEN ==> buffer[j] == Word(seed, base + j)
      {
        Recurrence(seed, base, i);
        buffer[i] := Mix(buffer[i + IA], buffer[i], buffer[i + 1]);
        i := i + 1;
      }
      while i < LEN - 1
        invariant IB <= i <= LEN - 1
        invariant forall j :: 0 <= j < i ==> buffer[j] == Word(seed, drawn + j)
        invariant forall j :: i <= j < LEN ==> buffer[j] == Word(seed, base + j)
      {
        Recurrence(seed, base, i);
        assert base + (i + IA) == drawn + (i - IB);
        buffer[i] := Mix(buffer[i - IB], buffer[i], buffer[i + 1]);
        i := i + 1;
      }
      Recurrence(seed, base, LEN - 1);
      assert base + (LEN - 1 + IA) == drawn + (IA - 1) && base + (LEN - 1 + 1) == drawn + 0;
      buffer[LEN - 1] := Mix(buffer[IA - 1], buffer[LEN - 1], buffer[0]);
    }

    /** Each call returns the next word of the stream. */
    method Random() returns (r: bv32)
      requires Valid()
      modifies this, buffer
      ensures Valid() && seed == old(seed) && drawn == old(drawn) + 1
      ensures r == old(Future(0)) == Word(seed, drawn - 1)
      ensures forall k: nat :: Future(k) == old(Future(k + 1))
    {
      var idx := index;
      if idx == 4 * LEN {
        TwistBlock();
        idx := 0;
      }
      r := buffer[idx / 4];
      index := idx + 4;
      drawn := drawn + 1;
    }

    /** A draw from [0, 1]: the largest word gives one, against what the header promises. */
    method Uniform01() returns (u: real)
      requires Valid()
      modifies this, buffer
      ensures Valid() && seed == old(seed) && drawn == old(drawn) + 1
      ensures u == Uniform(old(Future(0)))
      ensures 0.0 <= u <= 1.0 && (u == 1.0 <==> old(Future(0)) == 0xFFFF_FFFF)
    {
      var r := Random();
      UniformRange(r);
      u := Uniform(r);
    }

    /** Seeding from another generator: its next 624 words become the new block. */
    constructor FromRng(seeder: Rng)
      requires seeder.Valid()
      modifies seeder, seeder.buffer
      ensures Valid() && index == 0 && drawn == 0 && fresh(buffer)
      ensures seeder.Valid() && seeder.seed == old(seeder.seed) && seeder.drawn == old(seeder.drawn) + LEN
      ensures Block(seeder.seed, old(seeder.drawn), seed)
    {
      buffer := new bv32[LEN](_ => 0);
      index, drawn, seed := 0, 0, [];
      new;
      var i := 0;
      while i < LEN
        invariant 0 <= i <= LEN && buffer.Length == LEN && index == 0 && drawn == 0
        invariant seeder.Valid() && seeder.seed == old(seeder.seed) && seeder.drawn == old(seeder.drawn) + i
        invariant seeder != this && seeder.buffer != buffer
        invariant forall j :: 0 <= j < i ==> buffer[j] == Word(seeder.seed, old(seeder.drawn) + j)
      {
        buffer[i] := seeder.Random();
        i := i + 1;
      }
      seed := buffer[..];
    }
  }

  const RAND_MAX: int := 0xFFFF_FFFF

  function Uniform(r: bv32): real {
    (r as int) as real / RAND_MAX as real
  }

  /** Every draw lies in [0, 1], and equals one exactly for the largest word. */
  lemma UniformRange(r: bv32)
    ensures 0.0 <= Uniform(r) <= 1.0 && (Uniform(r) == 1.0 <==> r == 0xFFFF_FFFF)
    ensures Uniform(r) * 4294967295.0 == (r as int) as real
  {
    if r as int == RAND_MAX { LargestWord(r); }
    ShareOfLargest(r as int);
  }

  lemma LargestWord(r: bv32)
    requires r as int == RAND_MAX
    ensures r == 0xFFFF_FFFF
  {
    assert r == (r as int) as bv32;
  }

  lemma ShareOfLargest(i: int)
    requires 0 <= i <= RAND_MAX
    ensures 0.0 <= i as real / RAND_MAX as real <= 1.0 && (i as real / RAND_MAX as real == 1.0 <==> i == RAND_MAX)
    ensures i as real / RAND_MAX as real * 4294967295.0 == i as real
  {}

  /** A generator seeded from another one replays its seeder: word k of the child is word k of the
      seeder counted from the moment of seeding, so from word 624 on the two streams coincide. */
  lemma SeededStreamOverlaps(parentSeed: seq<bv32>, drawnBefore: nat, childSeed: seq<bv32>, k: nat)
    requires |parentSeed| == LEN && Block(parentSeed, drawnBefore, childSeed)
    ensures Word(childSeed, k) == Word(parentSeed, drawnBefore + k)
    ensures Word(childSeed, LEN + k) == Word(parentSeed, (drawnBefore + LEN) + k)
  {
    Restart(parentSeed, drawnBefore, childSeed, k);
    Restart(parentSeed, drawnBefore, childSeed, LEN + k);
    assert drawnBefore + (LEN + k) == (drawnBefore + LEN) + k;
  }

  /** Two generators seeded in a row deliver one stream, the second 624 words behind the first. */
  method SeedTwo(seeder: Rng) returns (first: Rng, second: Rng)
    requires seeder.Valid()
    modifies seeder, seeder.buffer
    ensures first.Valid() && second.Valid() && seeder.Valid() && fresh(first) && fresh(second)
    ensures forall k: nat :: second.Future(k) == first.Future(LEN + k)
    ensures forall k: nat :: seeder.Future(k) == second.Future(LEN + k)
  {
    ghost var d := seeder.drawn;
    first := new Rng.FromRng(seeder);
    second := new Rng.FromRng(seeder);
    forall k: nat
      ensures second.Future(k) == first.Future(LEN + k)
    {
      SeededStreamOverlaps(seeder.seed, d, first.seed, k);
      SeededStreamOverlaps(seeder.seed, d + LEN, second.seed, k);
    }
    forall k: nat
      ensures seeder.Future(k) == second.Future(LEN + k)
    {
      SeededStreamOverlaps(seeder.seed, d + LEN, second.seed, k);
    }
  }
}
