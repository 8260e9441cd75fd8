/** The scan for the best cutoff in src/plfit.c: sequentially, and as the OpenMP block runs it, with
    chunks of ten probes handed to threads and a critical section that merges their best results. */
module XminScan {

  /** What a probe yields: KS distance, exponent, cutoff and number of samples from there on. */
  datatype Fit = Fit(d: real, alpha: real, xmin: real, n: nat)

  /** The record before any probe; big stands for DBL_MAX. */
  function Start(big: real): Fit {
    Fit(big, 0.0, 0.0, 0)
  }

  function Better(best: Fit, f: Fit): Fit {
    if f.d < best.d then f else best
  }

  /** Scanning fits[lo..hi] in order, starting from a given best record. */
  function Fold(best: Fit, fits: seq<Fit>, lo: nat, hi: nat): Fit
    requires lo <= hi <= |fits|
    decreases hi
  {
    if lo == hi then best else Better(Fold(best, fits, lo, hi - 1), fits[hi - 1])
  }

  function Scan(fits: seq<Fit>, big: real): Fit {
    Fold(Start(big), fits, 0, |fits|)
  }

  ghost predicate Minimal(fits: seq<Fit>, i: nat) {
    i < |fits| && forall j :: 0 <= j < |fits| ==> fits[i].d <= fits[j].d
  }

  /** i is the first of the best probes. */
  ghost predicate FirstMinimal(fits: seq<Fit>, i: int) {
    0 <= i < |fits| && Minimal(fits, i) && forall j :: 0 <= j < i ==> fits[i].d < fits[j].d
  }

  /** The scan keeps the first of the best records. */
  lemma {:induction false} FoldFirst(best: Fit, fits: seq<Fit>, lo: nat, hi: nat)
    requires lo <= hi <= |fits|
    ensures var r := Fold(best, fits, lo, hi);
      && (r == best || exists i :: lo <= i < hi && r == fits[i] && fits[i].d < best.d
                          && forall j :: lo <= j < i ==> fits[i].d < fits[j].d)
      && r.d <= best.d && forall j :: lo <= j < hi ==> r.d <= fits[j].d
  {
    if lo < hi {
      FoldFirst(best, fits, lo, hi - 1);
      var r := Fold(best, fits, lo, hi);
      if fits[hi - 1].d < Fold(best, fits, lo, hi - 1).d {
        assert r == fits[hi - 1] && forall j :: lo <= j < hi - 1 ==> fits[hi - 1].d < fits[j].d;
      }
    }
  }

  lemma FoldIsFirstMinimum(start: Fit, fits: seq<Fit>)
    ensures var r := Fold(start, fits, 0, |fits|);
      && (r == start ==> forall j :: 0 <= j < |fits| ==> start.d <= fits[j].d)
      && (r != start ==> r.d < start.d && exists i :: FirstMinimal(fits, i) && r == fits[i])
  {
    FoldFirst(start, fits, 0, |fits|);
    var r := Fold(start, fits, 0, |fits|);
    if r != start {
      var i :| 0 <= i < |fits| && r == fits[i] && fits[i].d < start.d
               && forall j :: 0 <= j < i ==> fits[i].d < fits[j].d;
      assert FirstMinimal(fits, i);
    }
  }

  lemma ScanIsFirstMinimum(fits: seq<Fit>, big: real)
    ensures var r := Scan(fits, big);
      && (r == Start(big) ==> forall j :: 0 <= j < |fits| ==> big <= fits[j].d)
      && (r != Start(big) ==> r.d < big && exists i :: FirstMinimal(fits, i) && r == fits[i])
  {
    FoldIsFirstMinimum(Start(big), fits);
  }

  // ----- the parallel block as a state machine -----

  const CHUNK: nat := 10

  function Chunks(n: nat): nat {
    (n + CHUNK - 1) / CHUNK
  }

  function ChunkEnd(c: nat, n: nat): nat {
    if CHUNK * (c + 1) <= n then CHUNK * (c + 1) else n
  }

  /** A thread: the rest [cur, lim) of the chunk it holds, its private best, whether it has been
      through the critical section; done is bookkeeping for the proofs. */
  datatype Thread = Thread(cur: nat, lim: nat, best: Fit, merged: bool, done: set<nat>)

  /** Shared: the next chunk to hand out and the global best. */
  datatype State = State(next: nat, threads: seq<Thread>, global: Fit)

  function Init(numThreads: nat, big: real): State {
    State(0, seq(numThreads, _ => Thread(0, 0, Start(big), false, {})), Start(big))
  }

  /** An idle thread takes the next chunk. */
  function Grab(s: State, t: nat, n: nat): State
    requires t < |s.threads|
  {
    State(s.next + 1, s.threads[t := s.threads[t].(cur := CHUNK * s.next, lim := ChunkEnd(s.next, n))], s.global)
  }

  predicate CanGrab(s: State, t: nat, n: nat) {
    t < |s.threads| && s.threads[t].cur == s.threads[t].lim && !s.threads[t].merged && s.next < Chunks(n)
  }

  function Probed(th: Thread, fits: seq<Fit>): Thread
    requires th.cur < |fits|
  {
    th.(cur := th.cur + 1, best := Better(th.best, fits[th.cur]), done := th.done + {th.cur})
  }

  /** A thread evaluates the next probe of its chunk. */
  function Probe(s: State, t: nat, fits: seq<Fit>): State
    requires t < |s.threads| && s.threads[t].cur < |fits|
  {
    var th := s.threads[t];
    s.(threads := s.threads[t := Probed(th, fits)])
  }

  predicate CanProbe(s: State, t: nat, fits: seq<Fit>) {
    t < |s.threads| && s.threads[t].cur < s.threads[t].lim <= |fits|
  }

  /** A thread that finds no chunk left enters the critical section. */
  function Merge(s: State, t: nat): State
    requires t < |s.threads|
  {
    s.(threads := s.threads[t := s.threads[t].(merged := true)], global := Better(s.global, s.threads[t].best))
  }

  predicate CanMerge(s: State, t: nat, n: nat) {
    t < |s.threads| && s.threads[t].cur == s.threads[t].lim && !s.threads[t].merged && s.next == Chunks(n)
  }

  ghost predicate Step(s: State, s': State, fits: seq<Fit>) {
    exists t: nat :: t < |s.threads| &&
      ((CanGrab(s, t, |fits|) && s' == Grab(s, t, |fits|))
       || (CanProbe(s, t, fits) && s' == Probe(s, t, fits))
       || (CanMerge(s, t, |fits|) && s' == Merge(s, t)))
  }

  ghost predicate Run(path: seq<State>, fits: seq<Fit>) {
    |path| > 0 && forall i :: 0 <= i < |path| - 1 ==> Step(path[i], path[i + 1], fits)
  }

  /** Every thread has left the parallel block. */
  predicate Finished(s: State, n: nat) {
    |s.threads| > 0 && forall t :: 0 <= t < |s.threads| ==> s.threads[t].merged
  }

  // ----- invariant -----

  /** Among the probes of its own chunk, i is strictly better than the earlier ones. */
  ghost predicate Leader(fits: seq<Fit>, i: nat) {
    i < |fits| && forall j :: 0 <= j < i && j / CHUNK == i / CHUNK ==> fits[i].d < fits[j].d
  }

  /** The record is the best over the given probes, and comes from one that leads its chunk. */
  ghost predicate BestOver(best: Fit, done: set<nat>, fits: seq<Fit>, big: real) {
    && (best == Start(big) || exists i :: i in done && Leader(fits, i) && best == fits[i] && best.d < big)
    && best.d <= big
    && forall i :: i in done && i < |fits| ==> best.d <= fits[i].d
  }

  ghost predicate ThreadOk(th: Thread, fits: seq<Fit>, big: real, next: nat) {
    && th.cur <= th.lim <= |fits|
    && BestOver(th.best, th.done, fits, big)
    && (th.cur < th.lim ==> th.lim <= CHUNK * (th.cur / CHUNK + 1))
    && (th.cur < th.lim ==> forall j :: CHUNK * (th.cur / CHUNK) <= j < th.cur ==> j in th.done)
    && (th.merged ==> th.cur == th.lim && next == Chunks(|fits|))
  }

  /** Probe i has been evaluated by, or is waiting with, some thread. */
  ghost predicate Assigned(s: State, i: nat) {
    exists t :: 0 <= t < |s.threads| && (i in s.threads[t].done || s.threads[t].cur <= i < s.threads[t].lim)
  }

  ghost predicate Inv(s: State, fits: seq<Fit>, big: real) {
    && s.next <= Chunks(|fits|)
    && (forall t :: 0 <= t < |s.threads| ==> ThreadOk(s.threads[t], fits, big, s.next))
    && (forall i :: 0 <= i < |fits| && i < CHUNK * s.next ==> Assigned(s, i))
    && (s.global == Start(big)
        || exists t :: 0 <= t < |s.threads| && s.threads[t].merged && s.global == s.threads[t].best)
    && s.global.d <= big
    && (forall t :: 0 <= t < |s.threads| && s.threads[t].merged ==> s.global.d <= s.threads[t].best.d)
  }

  lemma GrabKeepsInv(s: State, t: nat, fits: seq<Fit>, big: real)
    requires Inv(s, fits, big) && CanGrab(s, t, |fits|)
    ensures Inv(Grab(s, t, |fits|), fits, big)
  {
    hide BestOver;
    var s' := Grab(s, t, |fits|);
    assert CHUNK * s.next < |fits|;
    assert (CHUNK * s.next) / CHUNK == s.next;
    forall i | 0 <= i < |fits| && i < CHUNK * s'.next ensures Assigned(s', i) {
      if i < CHUNK * s.next {
        assert Assigned(s, i);
        var u :| 0 <= u < |s.threads| && (i in s.threads[u].done || s.threads[u].cur <= i < s.threads[u].lim);
        assert i in s'.threads[u].done || s'.threads[u].cur <= i < s'.threads[u].lim;
      } else {
        assert s'.threads[t].cur <= i < s'.threads[t].lim;
      }
    }
  }

  lemma ProbeKeepsThread(th: Thread, fits: seq<Fit>, big: real, next: nat)
    requires ThreadOk(th, fits, big, next) && th.cur < th.lim
    ensures ThreadOk(Probed(th, fits), fits, big, next)
  {
    var c := th.cur;
    if c + 1 < th.lim { assert (c + 1) / CHUNK == c / CHUNK; }
    if fits[c].d < th.best.d {
      assert Leader(fits, c);
    } else if th.best != Start(big) {
      var i :| i in th.done && Leader(fits, i) && th.best == fits[i] && th.best.d < big;
      assert i in th.done + {c};
    }
  }

  lemma ProbeKeepsAssigned(s: State, t: nat, fits: seq<Fit>, i: nat)
    requires CanProbe(s, t, fits) && Assigned(s, i)
    ensures Assigned(Probe(s, t, fits), i)
  {
    var s' := Probe(s, t, fits);
    var u :| 0 <= u < |s.threads| && (i in s.threads[u].done || s.threads[u].cur <= i < s.threads[u].lim);
    assert i in s'.threads[u].done || s'.threads[u].cur <= i < s'.threads[u].lim;
  }

  lemma ProbeKeepsInv(s: State, t: nat, fits: seq<Fit>, big: real)
    requires Inv(s, fits, big) && CanProbe(s, t, fits)
    ensures Inv(Probe(s, t, fits), fits, big)
  {
    var s' := Probe(s, t, fits);
    ProbeKeepsThread(s.threads[t], fits, big, s.next);
    assert !s.threads[t].merged;
    hide ThreadOk, Assigned;
    forall i | 0 <= i < |fits| && i < CHUNK * s'.next ensures Assigned(s', i) {
      ProbeKeepsAssigned(s, t, fits, i);
    }
    if s.global != Start(big) {
      var u :| 0 <= u < |s.threads| && s.threads[u].merged && s.global == s.threads[u].best;
      assert s'.threads[u].merged && s'.global == s'.threads[u].best;
    }
  }

  lemma MergeKeepsInv(s: State, t: nat, fits: seq<Fit>, big: real)
    requires Inv(s, fits, big) && CanMerge(s, t, |fits|)
    ensures Inv(Merge(s, t), fits, big)
  {
    var s' := Merge(s, t);
    assert BestOver(s.threads[t].best, s.threads[t].done, fits, big);
    assert s.threads[t].best.d <= big;
    hide BestOver;
    forall i | 0 <= i < |fits| && i < CHUNK * s'.next ensures Assigned(s', i) {
      assert Assigned(s, i);
      var u :| 0 <= u < |s.threads| && (i in s.threads[u].done || s.threads[u].cur <= i < s.threads[u].lim);
      assert i in s'.threads[u].done || s'.threads[u].cur <= i < s'.threads[u].lim;
    }
    assert s'.threads[t].merged;
    if s.global != Start(big) {
      var u :| 0 <= u < |s.threads| && s.threads[u].merged && s.global == s.threads[u].best;
      assert s'.threads[u].merged && s'.threads[u].best == s.threads[u].best;
    }
  }

  lemma StepKeepsInv(s: State, s': State, fits: seq<Fit>, big: real)
    requires Inv(s, fits, big) && Step(s, s', fits)
    ensures Inv(s', fits, big)
  {
    hide Inv;
    var t: nat :| t < |s.threads| &&
      ((CanGrab(s, t, |fits|) && s' == Grab(s, t, |fits|))
       || (CanProbe(s, t, fits) && s' == Probe(s, t, fits))
       || (CanMerge(s, t, |fits|) && s' == Merge(s, t)));
    if CanGrab(s, t, |fits|) && s' == Grab(s, t, |fits|) {
      GrabKeepsInv(s, t, fits, big);
    } else if CanProbe(s, t, fits) && s' == Probe(s, t, fits) {
      ProbeKeepsInv(s, t, fits, big);
    } else {
      MergeKeepsInv(s, t, fits, big);
    }
  }

  /** The invariant holds in every state of every run, whatever the interleaving. */
  lemma {:induction false} RunKeepsInv(path: seq<State>, fits: seq<Fit>, big: real, numThreads: nat, k: nat)
    requires Run(path, fits) && path[0] == Init(numThreads, big) && k < |path|
    ensures Inv(path[k], fits, big) && |path[k].threads| == numThreads
  {
    hide Inv;
    if k == 0 {
      InitInv(fits, big, numThreads);
    } else {
      RunKeepsInv(path, fits, big, numThreads, k - 1);
      assert Step(path[k - 1], path[k - 1 + 1], fits);
      StepKeepsInv(path[k - 1], path[k], fits, big);
    }
  }

  lemma InitInv(fits: seq<Fit>, big: real, numThreads: nat)
    ensures Inv(Init(numThreads, big), fits, big) && |Init(numThreads, big).threads| == numThreads
  {}

  /** When all threads have left the block, the global record is a best one. */
  lemma FinishedIsMinimum(s: State, fits: seq<Fit>, big: real)
    requires Inv(s, fits, big) && Finished(s, |fits|)
    ensures forall i :: 0 <= i < |fits| ==> s.global.d <= fits[i].d
    ensures s.global == Start(big)
            || exists i: nat :: Minimal(fits, i) && Leader(fits, i) && s.global == fits[i] && fits[i].d < big
  {
    assert s.threads[0].merged;
    assert |fits| <= CHUNK * s.next;
    forall i | 0 <= i < |fits| ensures s.global.d <= fits[i].d {
      assert Assigned(s, i);
      var t :| 0 <= t < |s.threads| && (i in s.threads[t].done || s.threads[t].cur <= i < s.threads[t].lim);
      assert s.threads[t].merged && ThreadOk(s.threads[t], fits, big, s.next);
    }
    if s.global != Start(big) {
      var t :| 0 <= t < |s.threads| && s.threads[t].merged && s.global == s.threads[t].best;
      assert BestOver(s.threads[t].best, s.threads[t].done, fits, big);
      var i :| i in s.threads[t].done && Leader(fits, i) && s.global == fits[i] && s.global.d < big;
      assert Minimal(fits, i);
    }
  }

  /** For every assignment of chunks to threads and every order of merging, the final distance is the
      sequential minimum, and the stored record belongs to one probe that attains it. */
  lemma ParallelMinimum(path: seq<State>, fits: seq<Fit>, big: real, numThreads: nat)
    requires Run(path, fits) && path[0] == Init(numThreads, big) && Finished(path[|path|-1], |fits|)
    ensures var g := path[|path|-1].global;
      && g.d == Scan(fits, big).d
      && (g == Start(big) <==> Scan(fits, big) == Start(big))
      && (g != Start(big) ==> exists i: nat :: Minimal(fits, i) && Leader(fits, i) && g == fits[i])
  {
    var s := path[|path|-1];
    RunKeepsInv(path, fits, big, numThreads, |path| - 1);
    FinishedIsMinimum(s, fits, big);
    ScanIsFirstMinimum(fits, big);
    var r := Scan(fits, big);
    if r != Start(big) {
      var i :| FirstMinimal(fits, i) && r == fits[i];
    }
  }

  // ----- when every schedule agrees with the sequential scan -----

  ghost predicate Reaches(s: State, s': State, fits: seq<Fit>) {
    exists path :: Run(path, fits) && path[0] == s && path[|path| - 1] == s'
  }

  lemma ReachesAlso(s: State, m: State, s': State, fits: seq<Fit>)
    requires Reaches(s, m, fits) && Step(m, s', fits)
    ensures Reaches(s, s', fits)
  {
    var path :| Run(path, fits) && path[0] == s && path[|path| - 1] == m;
    var longer := path + [s'];
    assert Run(longer, fits) by {
      forall i | 0 <= i < |longer| - 1 ensures Step(longer[i], longer[i + 1], fits) {
        if i < |path| - 1 { assert Step(path[i], path[i + 1], fits); }
      }
    }
    assert longer[0] == s && longer[|longer| - 1] == s';
  }

  /** s' differs from s only in thread t, which is idle with the given best record, and in next. */
  predicate OnlyThread(s: State, s': State, t: nat, best: Fit, next: nat) {
    && |s'.threads| == |s.threads| && t < |s.threads| && s'.next == next && s'.global == s.global
    && (forall u :: 0 <= u < |s.threads| && u != t ==> s'.threads[u] == s.threads[u])
    && s'.threads[t].cur == s'.threads[t].lim && s'.threads[t].merged == s.threads[t].merged
    && s'.threads[t].best == best
  }

  lemma {:induction false} FoldFront(best: Fit, fits: seq<Fit>, lo: nat, hi: nat)
    requires lo < hi <= |fits|
    ensures Fold(best, fits, lo, hi) == Fold(Better(best, fits[lo]), fits, lo + 1, hi)
  {
    if lo + 1 < hi { FoldFront(best, fits, lo, hi - 1); }
  }

  /** A thread left alone works off its chunk. */
  lemma {:induction false} WorkOff(origin: State, s: State, t: nat, fits: seq<Fit>) returns (s': State)
    requires Reaches(origin, s, fits) && t < |s.threads| && s.threads[t].cur <= s.threads[t].lim <= |fits|
    ensures Reaches(origin, s', fits)
    ensures OnlyThread(s, s', t, Fold(s.threads[t].best, fits, s.threads[t].cur, s.threads[t].lim), s.next)
    decreases s.threads[t].lim - s.threads[t].cur
  {
    var th := s.threads[t];
    if th.cur == th.lim {
      s' := s;
    } else {
      var m := Probe(s, t, fits);
      assert Step(s, m, fits) by { assert CanProbe(s, t, fits); }
      ReachesAlso(origin, s, m, fits);
      FoldFront(th.best, fits, th.cur, th.lim);
      s' := WorkOff(origin, m, t, fits);
    }
  }

  lemma TakeChunk(origin: State, s: State, t: nat, fits: seq<Fit>) returns (s': State)
    requires Reaches(origin, s, fits) && CanGrab(s, t, |fits|)
    ensures Reaches(origin, s', fits) && CHUNK * s.next < ChunkEnd(s.next, |fits|) <= |fits|
    ensures OnlyThread(s, s', t, Fold(s.threads[t].best, fits, CHUNK * s.next, ChunkEnd(s.next, |fits|)), s.next + 1)
  {
    var m := Grab(s, t, |fits|);
    assert Step(s, m, fits);
    ReachesAlso(origin, s, m, fits);
    s' := WorkOff(origin, m, t, fits);
  }

  /** A thread takes all chunks before the given one. */
  lemma {:induction false} TakeUpTo(origin: State, s: State, t: nat, c: nat, fits: seq<Fit>)
    returns (s': State, best: Fit)
    requires Reaches(origin, s, fits) && t < |s.threads| && s.threads[t].cur == s.threads[t].lim
    requires !s.threads[t].merged && s.next <= c <= Chunks(|fits|)
    ensures Reaches(origin, s', fits) && OnlyThread(s, s', t, best, c)
    decreases c - s.next
  {
    if s.next == c {
      s', best := s, s.threads[t].best;
    } else {
      var m := TakeChunk(origin, s, t, fits);
      s', best := TakeUpTo(origin, m, t, c, fits);
    }
  }

  /** A best probe that leads its chunk is what two threads return when one takes just that chunk and
      merges first. */
  lemma ScheduleFor(fits: seq<Fit>, big: real, i: nat) returns (path: seq<State>)
    requires Minimal(fits, i) && Leader(fits, i) && fits[i].d < big
    ensures Run(path, fits) && path[0] == Init(2, big) && Finished(path[|path|-1], |fits|)
    ensures path[|path|-1].global == fits[i]
  {
    var c, n := i / CHUNK, |fits|;
    var s0 := Init(2, big);
    assert Reaches(s0, s0, fits) by { assert Run([s0], fits) && [s0][0] == s0; }
    var s1, b1 := TakeUpTo(s0, s0, 0, c, fits);
    var s2 := TakeChunk(s0, s1, 1, fits);
    FoldFirst(Start(big), fits, CHUNK * c, ChunkEnd(c, n));
    assert s2.threads[1].best == fits[i] by {
      var k :| CHUNK * c <= k < ChunkEnd(c, n) && s2.threads[1].best == fits[k]
               && forall j :: CHUNK * c <= j < k ==> fits[k].d < fits[j].d;
      assert k / CHUNK == c;
    }
    var s3, b3 := TakeUpTo(s0, s2, 0, Chunks(n), fits);
    assert fits[i].d <= s3.threads[0].best.d by { ReachedThread(s0, s3, fits, big, 0, i); }
    var s4 := Merge(s3, 1);
    assert Step(s3, s4, fits) by { assert CanMerge(s3, 1, n); }
    ReachesAlso(s0, s3, s4, fits);
    var s5 := Merge(s4, 0);
    assert Step(s4, s5, fits) by { assert CanMerge(s4, 0, n); }
    ReachesAlso(s0, s4, s5, fits);
    path :| Run(path, fits) && path[0] == s0 && path[|path| - 1] == s5;
    assert s4.global == fits[i];
  }

  /** No private best record beats a best probe. */
  lemma ReachedThread(s0: State, s: State, fits: seq<Fit>, big: real, t: nat, i: nat)
    requires s0 == Init(2, big) && Reaches(s0, s, fits) && t < |s.threads|
    requires Minimal(fits, i) && fits[i].d < big
    ensures fits[i].d <= s.threads[t].best.d
  {
    var path :| Run(path, fits) && path[0] == s0 && path[|path| - 1] == s;
    RunKeepsInv(path, fits, big, 2, |path| - 1);
    assert ThreadOk(s.threads[t], fits, big, s.next);
    assert BestOver(s.threads[t].best, s.threads[t].done, fits, big);
  }

  /** No best probe that leads its chunk has a record other than the one the scan keeps. */
  ghost predicate NoRivals(fits: seq<Fit>, big: real) {
    Scan(fits, big) == Start(big) || forall i: nat :: Minimal(fits, i) && Leader(fits, i) ==> fits[i] == Scan(fits, big)
  }

  ghost predicate EveryScheduleAgrees(fits: seq<Fit>, big: real) {
    forall path: seq<State>, numThreads: nat ::
      Run(path, fits) && path[0] == Init(numThreads, big) && Finished(path[|path|-1], |fits|)
      ==> path[|path|-1].global == Scan(fits, big)
  }

  /** The parallel scan returns the sequential result under every schedule exactly when no later chunk
      is led by a tie with a different record. */
  lemma ParallelEqualsSequential(fits: seq<Fit>, big: real)
    ensures EveryScheduleAgrees(fits, big) <==> NoRivals(fits, big)
  {
    if NoRivals(fits, big) {
      forall path: seq<State>, numThreads: nat
        | Run(path, fits) && path[0] == Init(numThreads, big) && Finished(path[|path|-1], |fits|)
        ensures path[|path|-1].global == Scan(fits, big)
      {
        ParallelMinimum(path, fits, big, numThreads);
      }
    } else {
      var i: nat :| Minimal(fits, i) && Leader(fits, i) && fits[i] != Scan(fits, big);
      ScanIsFirstMinimum(fits, big);
      var path := ScheduleFor(fits, big, i);
      assert path[|path|-1].global != Scan(fits, big);
    }
  }

  /** With a unique best probe the whole record is the sequential one. */
  lemma UniqueMinimumAgrees(fits: seq<Fit>, big: real)
    requires forall i: nat, j: nat :: Minimal(fits, i) && Minimal(fits, j) ==> i == j
    ensures EveryScheduleAgrees(fits, big)
  {
    ScanIsFirstMinimum(fits, big);
    if Scan(fits, big) != Start(big) {
      var i :| FirstMinimal(fits, i) && Scan(fits, big) == fits[i];
      assert Minimal(fits, i);
      forall j: nat | Minimal(fits, j) && Leader(fits, j) ensures fits[j] == Scan(fits, big) {
        assert i == j;
      }
    }
    assert NoRivals(fits, big);
    ParallelEqualsSequential(fits, big);
  }
}
