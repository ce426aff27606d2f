/**
  The spinning readers-writer lock of src/core/ngx_rwlock.c as a step system: any number of threads
  take turns at single loads, stores and compare-and-set operations on one word.
 */
module RwLock {

  const WLOCK := 0xffff_ffff_ffff_ffff      // NGX_RWLOCK_WLOCK, (ngx_atomic_uint_t) -1

  /** Where a thread is. */
  datatype Phase =
    | Idle
    | WantWrite                     // before *lock == 0
    | TryWrite                      // before ngx_atomic_cmp_set(lock, 0, NGX_RWLOCK_WLOCK)
    | Writing
    | WantRead                      // before readers = *lock
    | TryRead(readers: nat)         // before ngx_atomic_cmp_set(lock, readers, readers + 1)
    | Reading
    | Unlock(writer: bool)          // before readers = *lock in ngx_rwlock_unlock
    | Clear(writer: bool)           // before *lock = 0
    | Drop(readers: nat, writer: bool)        // before ngx_atomic_cmp_set(lock, readers, readers - 1)
    | Reload(writer: bool)          // before readers = *lock in the loop

  datatype State = State(word: nat, threads: seq<Phase>)

  /** What a thread does that is free to choose. */
  datatype Choice = TakeWrite | TakeRead

  /** One step of thread t; `choice` matters where the caller decides what to do next. */
  function Step(s: State, t: nat, choice: Choice): State
    requires t < |s.threads|
  {
    match s.threads[t]
    case Idle => Go(s, t, if choice.TakeWrite? then WantWrite else WantRead)
    case WantWrite => Go(s, t, if s.word == 0 then TryWrite else WantWrite)
    case TryWrite => if s.word == 0 then Go(s.(word := WLOCK), t, Writing) else Go(s, t, WantWrite)
    case Writing => Go(s, t, Unlock(true))
    case WantRead => Go(s, t, if s.word != WLOCK then TryRead(s.word) else WantRead)
    case TryRead(readers) =>
      if s.word == readers then Go(s.(word := Plus(readers, 1)), t, Reading) else Go(s, t, WantRead)
    case Reading => Go(s, t, Unlock(false))
    case Unlock(writer) => Go(s, t, if s.word == WLOCK then Clear(writer) else Drop(s.word, writer))
    case Clear(writer) => Go(s.(word := 0), t, Idle)
    case Drop(readers, writer) =>
      if s.word == readers then Go(s.(word := Plus(readers, WLOCK)), t, Idle) else Go(s, t, Reload(writer))
    case Reload(writer) => Go(s, t, Drop(s.word, writer))
  }

  /** Addition of machine words; adding all-ones subtracts one. */
  function Plus(a: nat, b: nat): nat {
    (a + b) % (WLOCK + 1)
  }

  function Go(s: State, t: nat, p: Phase): State
    requires t < |s.threads|
  {
    s.(threads := s.threads[t := p])
  }

  /** The thread has the lock for writing: from the compare-and-set that takes it to the store that gives it back. */
  predicate HasWrite(p: Phase) {
    p.Writing? || ((p.Unlock? || p.Clear? || p.Drop? || p.Reload?) && p.writer)
  }

  predicate HasRead(p: Phase) {
    p.Reading? || ((p.Unlock? || p.Clear? || p.Drop? || p.Reload?) && !p.writer)
  }

  function Writers(ts: seq<Phase>): nat {
    if ts == [] then 0 else Writers(ts[..|ts| - 1]) + if HasWrite(ts[|ts| - 1]) then 1 else 0
  }

  function Readers(ts: seq<Phase>): (n: nat)
    ensures n <= |ts|
  {
    if ts == [] then 0 else Readers(ts[..|ts| - 1]) + if HasRead(ts[|ts| - 1]) then 1 else 0
  }

  /**
    The word is all-ones exactly if one thread writes and none reads, and the number of readers
    otherwise; and an unlocking thread knows what it has.
  */
  ghost predicate Inv(s: State) {
    && |s.threads| < WLOCK && s.word <= WLOCK
    && Writers(s.threads) == (if s.word == WLOCK then 1 else 0)
    && Readers(s.threads) == (if s.word == WLOCK then 0 else s.word)
    && forall t :: 0 <= t < |s.threads| ==> Knows(s.threads[t])
  }

  predicate Knows(p: Phase) {
    match p
    case Clear(writer) => writer
    case Drop(readers, writer) => !writer && readers != WLOCK
    case Reload(writer) => !writer
    case TryRead(readers) => readers != WLOCK
    case _ => true
  }

  lemma {:induction false} CountsAfter(ts: seq<Phase>, t: nat, p: Phase)
    requires t < |ts|
    ensures Writers(ts[t := p]) == Writers(ts) - (if HasWrite(ts[t]) then 1 else 0) + if HasWrite(p) then 1 else 0
    ensures Readers(ts[t := p]) == Readers(ts) - (if HasRead(ts[t]) then 1 else 0) + if HasRead(p) then 1 else 0
  {
    var k := |ts| - 1;
    if t < k {
      CountsAfter(ts[..k], t, p);
      assert ts[t := p][..k] == ts[..k][t := p];
    } else {
      assert ts[t := p][..k] == ts[..k];
    }
  }

  /** A holder is counted. */
  lemma {:induction false} HolderCounts(ts: seq<Phase>, t: nat)
    requires t < |ts|
    ensures HasWrite(ts[t]) ==> Writers(ts) >= 1
    ensures HasRead(ts[t]) ==> Readers(ts) >= 1
  {
    var k := |ts| - 1;
    if t < k {
      HolderCounts(ts[..k], t);
    }
  }

  lemma {:induction false} TwoHolders(ts: seq<Phase>, t: nat, u: nat)
    requires t < u < |ts|
    ensures HasWrite(ts[t]) && HasWrite(ts[u]) ==> Writers(ts) >= 2
  {
    var k := |ts| - 1;
    if u < k {
      TwoHolders(ts[..k], t, u);
    } else {
      HolderCounts(ts[..k], t);
    }
  }

  lemma {:induction false} CountsBound(ts: seq<Phase>)
    ensures Writers(ts) + Readers(ts) <= |ts|
  {
    if ts != [] {
      CountsBound(ts[..|ts| - 1]);
    }
  }

  lemma StepKeepsInv(s: State, t: nat, choice: Choice)
    requires Inv(s) && t < |s.threads|
    ensures Inv(Step(s, t, choice))
  {
    hide Writers, Readers, Plus;
    var ts, s' := s.threads, Step(s, t, choice);
    HolderCounts(ts, t);
    CountsAfter(ts, t, s'.threads[t]);
    CountsBound(s'.threads);
    assert Knows(ts[t]);
    if ts[t].TryRead? && s.word == ts[t].readers {
      PlusOne(ts[t].readers);
    } else if ts[t].Drop? && s.word == ts[t].readers {
      PlusAll(ts[t].readers);
    }
  }

  lemma PlusOne(a: nat)
    requires a < WLOCK
    ensures Plus(a, 1) == a + 1
  {
  }

  lemma PlusAll(a: nat)
    requires 1 <= a <= WLOCK
    ensures Plus(a, WLOCK) == a - 1
  {
    assert a + WLOCK == (WLOCK + 1) + (a - 1);
  }

  /** All states of a run. */
  ghost predicate Run(run: seq<State>) {
    && run != [] && run[0].word == 0
    && (forall t :: 0 <= t < |run[0].threads| ==> run[0].threads[t] == Idle)
    && forall i :: 0 <= i < |run| - 1 ==> Next(run[i], run[i + 1])
  }

  ghost predicate Next(s: State, s': State) {
    exists t, c :: 0 <= t < |s.threads| && s' == Step(s, t, c)
  }

  lemma {:induction false} AllIdle(ts: seq<Phase>)
    requires forall t :: 0 <= t < |ts| ==> ts[t] == Idle
    ensures Writers(ts) == 0 && Readers(ts) == 0
  {
    if ts != [] {
      AllIdle(ts[..|ts| - 1]);
    }
  }

  /** In every run of fewer threads than the all-ones word the lock word says who has the lock. */
  lemma {:induction false} RunKeepsInv(run: seq<State>, i: nat)
    requires Run(run) && i < |run| && |run[0].threads| < WLOCK
    ensures Inv(run[i])
  {
    if i == 0 {
      AllIdle(run[0].threads);
    } else {
      RunKeepsInv(run, i - 1);
      assert Next(run[i - 1], run[i]);
      var t, c :| 0 <= t < |run[i - 1].threads| && run[i] == Step(run[i - 1], t, c);
      StepKeepsInv(run[i - 1], t, c);
    }
  }

  /** A writer is alone. */
  lemma WriterIsAlone(run: seq<State>, i: nat, t: nat, u: nat)
    requires Run(run) && i < |run| && |run[0].threads| < WLOCK
    requires t < |run[i].threads| && u < |run[i].threads| && t != u && HasWrite(run[i].threads[t])
    ensures !HasWrite(run[i].threads[u]) && !HasRead(run[i].threads[u])
  {
    RunKeepsInv(run, i);
    var ts := run[i].threads;
    HolderCounts(ts, t);
    HolderCounts(ts, u);
    if t < u {
      TwoHolders(ts, t, u);
    } else {
      TwoHolders(ts, u, t);
    }
  }

  /** When nobody has the lock, a thread that wants it gets it by two undisturbed steps. */
  lemma FreeLockIsTaken(s: State, t: nat, c: Choice)
    requires Inv(s) && t < |s.threads| && Writers(s.threads) == 0 && Readers(s.threads) == 0
    requires s.threads[t] == WantWrite || s.threads[t] == WantRead
    ensures var s1 := Step(s, t, c);
      var s2 := Step(s1, t, c);
      (HasWrite(s2.threads[t]) <==> s.threads[t] == WantWrite) && (HasRead(s2.threads[t]) <==> s.threads[t] == WantRead)
  {
    assert s.word == 0;
  }

  /** A lock that only readers hold is taken by another reader as fast, and they keep it. */
  lemma ReadersShare(s: State, t: nat, c: Choice)
    requires Inv(s) && t < |s.threads| && Writers(s.threads) == 0 && s.threads[t] == WantRead
    ensures var s2 := Step(Step(s, t, c), t, c);
      && HasRead(s2.threads[t]) && |s2.threads| == |s.threads|
      && Readers(s2.threads) == Readers(s.threads) + 1 && Writers(s2.threads) == 0
      && forall u :: 0 <= u < |s.threads| && u != t ==> s2.threads[u] == s.threads[u]
  {
    hide Writers, Readers, Plus;
    CountsBound(s.threads);
    PlusOne(s.word);
    var s1 := Step(s, t, c);
    CountsAfter(s.threads, t, s1.threads[t]);
    CountsAfter(s1.threads, t, Reading);
  }

  /** A holder that unlocks has given the lock back after three undisturbed steps. */
  lemma UnlockEnds(s: State, t: nat, c: Choice)
    requires Inv(s) && t < |s.threads| && (s.threads[t] == Writing || s.threads[t] == Reading)
    ensures var s3 := Step(Step(Step(s, t, c), t, c), t, c);
      && s3.threads == s.threads[t := Idle]
      && s3.word == (if s.threads[t] == Writing then 0 else s.word - 1)
  {
    HolderCounts(s.threads, t);
    if s.threads[t] == Reading {
      PlusAll(s.word);
    }
  }

  /** So has one that was disturbed, two steps after it looks at the word again. */
  lemma UnlockEndsLater(s: State, t: nat, c: Choice)
    requires Inv(s) && t < |s.threads| && s.threads[t] == Reload(false)
    ensures var s2 := Step(Step(s, t, c), t, c);
      s2.threads == s.threads[t := Idle] && s2.word == s.word - 1
  {
    HolderCounts(s.threads, t);
    PlusAll(s.word);
  }
}
