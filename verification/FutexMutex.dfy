/**
  The three-state futex mutex and the threads that count under it, as a state
  machine whose steps are single atomic operations of any number of threads.

  The kernel's side is modelled down to its bucket lock: a waiter compares the
  word and parks in two steps with the lock held between them, the word itself
  being changed by other threads meanwhile; a wake needs the lock.  A wake may
  release any non-empty set of parked threads (this kernel releases the whole
  bucket, others just one), and a parked thread may also wake for no reason.
 */
module FutexMutex {

  /** What a thread does next. */
  datatype Pc =
    | Start            // compare-and-swap 0 to 1
    | Mark             // exchange in 2, having seen 1
    | Wait             // enter the kernel: lock the bucket, compare the word with 2
    | Compared         // in the kernel, bucket locked, about to park
    | Parked
    | Exchange         // exchange in 2, back from the wait
    | Enter            // lock taken: read the counter
    | Add(tmp: int)    // write back the counter read, plus one
    | Leave            // fetch-and-subtract
    | Clear            // store 0
    | Wake             // enter the kernel and wake

  /** A thread and the iterations it has left; one with none left is finished. */
  datatype Thread = Thread(pc: Pc, left: nat)

  datatype State = State(word: int, counter: int, threads: seq<Thread>)

  datatype Step =
    | Run(i: nat)
    | WakeUp(i: nat, woken: set<nat>)
    | Spurious(i: nat)

  predicate Finished(t: Thread)
  {
    t.left == 0
  }

  predicate BucketFree(s: State)
  {
    forall j :: 0 <= j < |s.threads| ==> !s.threads[j].pc.Compared?
  }

  predicate Enabled(s: State, a: Step)
  {
    && a.i < |s.threads|
    && var t := s.threads[a.i];
       match a
       case Run(_) =>
         !Finished(t) && !t.pc.Parked? && !t.pc.Wake? && (t.pc.Wait? ==> BucketFree(s))
       case WakeUp(i, woken) =>
         && !Finished(t) && t.pc.Wake? && BucketFree(s)
         && (forall j :: j in woken ==> j < |s.threads| && s.threads[j].pc.Parked?)
         && ((exists j :: 0 <= j < |s.threads| && s.threads[j].pc.Parked?) ==> woken != {})
       case Spurious(_) => t.pc.Parked?
  }

  function Goto(s: State, i: nat, pc: Pc): State
    requires i < |s.threads|
  {
    s.(threads := s.threads[i := s.threads[i].(pc := pc)])
  }

  /** The loop counter of the worker moves on. */
  function NextRound(t: Thread): Thread
    requires !Finished(t)
  {
    Thread(Start, t.left - 1)
  }

  /** One atomic operation of thread `i`. */
  function RunOnce(s: State, i: nat): State
    requires Enabled(s, Run(i))
  {
    var t := s.threads[i];
    match t.pc
    case Start =>
      if s.word == 0 then Goto(s, i, Enter).(word := 1)
      else Goto(s, i, if s.word != 2 then Mark else Wait)
    case Mark => Goto(s, i, if s.word == 0 then Enter else Wait).(word := 2)
    case Wait => Goto(s, i, if s.word == 2 then Compared else Exchange)
    case Compared => Goto(s, i, Parked)
    case Exchange => Goto(s, i, if s.word == 0 then Enter else Wait).(word := 2)
    case Enter => Goto(s, i, Add(s.counter))
    case Add(tmp) => Goto(s, i, Leave).(counter := tmp + 1)
    case Leave =>
      if s.word != 1 then Goto(s, i, Clear).(word := s.word - 1)
      else s.(word := 0, threads := s.threads[i := NextRound(t)])
    case Clear => Goto(s, i, Wake).(word := 0)
  }

  function WakeThread(t: Thread, j: nat, woken: set<nat>): Thread
  {
    if j in woken then t.(pc := Exchange) else t
  }

  function Do(s: State, a: Step): (s': State)
    requires Enabled(s, a)
    ensures |s'.threads| == |s.threads|
  {
    match a
    case Run(i) => RunOnce(s, i)
    case Spurious(i) => Goto(s, i, Exchange)
    case WakeUp(i, woken) =>
      s.(threads := seq(|s.threads|, j requires 0 <= j < |s.threads| =>
                          if j == i then NextRound(s.threads[i]) else WakeThread(s.threads[j], j, woken)))
  }

  function Init(n: nat, rounds: nat): State
  {
    State(0, 0, seq(n, _ => Thread(Start, rounds)))
  }

  /** `run` can be carried out from `s`, step by step. */
  ghost predicate CanRun(s: State, run: seq<Step>)
    decreases |run|
  {
    run != [] ==> Enabled(s, run[0]) && CanRun(Do(s, run[0]), run[1..])
  }

  ghost function After(s: State, run: seq<Step>): State
    requires CanRun(s, run)
    decreases |run|
  {
    if run == [] then s else After(Do(s, run[0]), run[1..])
  }

  // ---- the invariant ---------------------------------------------------------------

  /** From taking the lock until the word is zero again. */
  predicate Owns(t: Thread)
  {
    t.pc.Enter? || t.pc.Add? || t.pc.Leave? || t.pc.Clear?
  }

  /** In the kernel, or on the way in past the comparison, and needing to be woken. */
  predicate Asleep(t: Thread)
  {
    t.pc.Parked? || t.pc.Compared?
  }

  /** Bound to wake somebody, or to mark the word contended. */
  predicate Rescuer(t: Thread)
  {
    t.pc.Clear? || t.pc.Wake? || t.pc.Mark? || t.pc.Exchange?
  }

  ghost predicate OneOwner(s: State)
  {
    forall i, j :: 0 <= i < |s.threads| && 0 <= j < |s.threads| && Owns(s.threads[i]) && Owns(s.threads[j]) ==> i == j
  }

  ghost predicate HasOwner(s: State)
  {
    exists i :: 0 <= i < |s.threads| && Owns(s.threads[i])
  }

  ghost predicate WordTellsOwner(s: State)
  {
    0 <= s.word <= 2 && (s.word == 0 <==> !HasOwner(s))
  }

  ghost predicate NoLostWakeup(s: State)
  {
    (exists i :: 0 <= i < |s.threads| && Asleep(s.threads[i])) ==>
      s.word == 2 || exists i :: 0 <= i < |s.threads| && Rescuer(s.threads[i])
  }

  /** Only a thread with work left is anywhere but at the start, and a pending write is up to date. */
  ghost predicate Sane(s: State)
  {
    forall i :: 0 <= i < |s.threads| ==>
      var t := s.threads[i];
      (Finished(t) ==> t.pc.Start?) && (t.pc.Add? ==> t.pc.tmp == s.counter)
  }

  /** Increments thread `t` has made out of `rounds`. */
  function Made(t: Thread, rounds: nat): int
  {
    rounds - t.left + if t.pc.Leave? || t.pc.Clear? || t.pc.Wake? then 1 else 0
  }

  function Total(ts: seq<Thread>, rounds: nat): int
  {
    if ts == [] then 0 else Total(ts[..|ts| - 1], rounds) + Made(ts[|ts| - 1], rounds)
  }

  ghost predicate Inv(s: State, rounds: nat)
  {
    && OneOwner(s) && WordTellsOwner(s) && NoLostWakeup(s) && Sane(s)
    && s.counter == Total(s.threads, rounds)
  }

  // ---- it holds at the start and every step keeps it ----------------------------------

  lemma {:induction false} TotalZero(ts: seq<Thread>, rounds: nat)
    requires forall i :: 0 <= i < |ts| ==> Made(ts[i], rounds) == 0
    ensures Total(ts, rounds) == 0
  {
    if ts != [] {
      TotalZero(ts[..|ts| - 1], rounds);
    }
  }

  lemma InitInv(n: nat, rounds: nat)
    ensures Inv(Init(n, rounds), rounds)
  {
    TotalZero(Init(n, rounds).threads, rounds);
  }

  lemma {:induction false} TotalSame(a: seq<Thread>, b: seq<Thread>, rounds: nat)
    requires |a| == |b| && forall i :: 0 <= i < |a| ==> Made(a[i], rounds) == Made(b[i], rounds)
    ensures Total(a, rounds) == Total(b, rounds)
  {
    if a != [] {
      TotalSame(a[..|a| - 1], b[..|b| - 1], rounds);
    }
  }

  lemma {:induction false} TotalUpdate(ts: seq<Thread>, i: nat, t: Thread, rounds: nat)
    requires i < |ts|
    ensures Total(ts[i := t], rounds) == Total(ts, rounds) + Made(t, rounds) - Made(ts[i], rounds)
  {
    var n := |ts| - 1;
    if i < n {
      TotalUpdate(ts[..n], i, t, rounds);
      assert ts[i := t][..n] == ts[..n][i := t];
    } else {
      assert ts[i := t][..n] == ts[..n];
    }
  }

  lemma RunKeepsOwner(s: State, i: nat)
    requires OneOwner(s) && WordTellsOwner(s) && Enabled(s, Run(i))
    ensures OneOwner(Do(s, Run(i))) && WordTellsOwner(Do(s, Run(i)))
  {
    var s' := Do(s, Run(i));
    var t := s.threads[i];
    assert Owns(t) ==> HasOwner(s);
    assert Owns(s'.threads[i]) ==> HasOwner(s');
    if j :| 0 <= j < |s.threads| && Owns(s.threads[j]) {
      assert j != i ==> s'.threads[j] == s.threads[j];
    }
  }

  lemma RunKeepsWakeup(s: State, i: nat)
    requires OneOwner(s) && WordTellsOwner(s) && NoLostWakeup(s) && Enabled(s, Run(i))
    ensures NoLostWakeup(Do(s, Run(i)))
  {
    var s' := Do(s, Run(i));
    var t, t' := s.threads[i], s'.threads[i];
    if j :| 0 <= j < |s'.threads| && Asleep(s'.threads[j]) {
      if Rescuer(t') || s'.word == 2 {
      } else {
        assert Asleep(s.threads[j]) by {
          if j == i {
            assert t.pc.Compared?;
          }
        }
        if s.word != 2 {
          var r :| 0 <= r < |s.threads| && Rescuer(s.threads[r]);
          assert r != i;
          assert Rescuer(s'.threads[r]);
        }
      }
    }
  }

  lemma RunKeepsTotal(s: State, i: nat, rounds: nat)
    requires OneOwner(s) && Sane(s) && Enabled(s, Run(i)) && s.counter == Total(s.threads, rounds)
    ensures var s' := Do(s, Run(i)); Sane(s') && s'.counter == Total(s'.threads, rounds)
  {
    var s' := Do(s, Run(i));
    TotalUpdate(s.threads, i, s'.threads[i], rounds);
    assert s'.threads == s.threads[i := s'.threads[i]];
    assert Owns(s.threads[i]) ==> forall j :: 0 <= j < |s.threads| && j != i ==> !Owns(s.threads[j]);
  }

  lemma WakeKeepsOwner(s: State, a: Step)
    requires OneOwner(s) && WordTellsOwner(s) && Enabled(s, a) && !a.Run?
    ensures OneOwner(Do(s, a)) && WordTellsOwner(Do(s, a))
  {
    var s' := Do(s, a);
    assert forall j :: 0 <= j < |s.threads| ==> Owns(s.threads[j]) == Owns(s'.threads[j]);
    if j :| 0 <= j < |s.threads| && Owns(s.threads[j]) {
      assert Owns(s'.threads[j]);
    }
  }

  lemma WakeKeepsWakeup(s: State, a: Step)
    requires NoLostWakeup(s) && Enabled(s, a) && !a.Run?
    ensures NoLostWakeup(Do(s, a))
  {
    var s' := Do(s, a);
    if a.Spurious? {
      assert Rescuer(s'.threads[a.i]);
    } else if j :| 0 <= j < |s'.threads| && Asleep(s'.threads[j]) {
      assert s.threads[j].pc.Parked?;
      var r :| r in a.woken;
      assert Rescuer(s'.threads[r]);
    }
  }

  lemma WakeKeepsTotal(s: State, a: Step, rounds: nat)
    requires Sane(s) && Enabled(s, a) && !a.Run? && s.counter == Total(s.threads, rounds)
    ensures var s' := Do(s, a); Sane(s') && s'.counter == Total(s'.threads, rounds)
  {
    TotalSame(s.threads, Do(s, a).threads, rounds);
  }

  /** Every atomic step of every thread keeps the invariant. */
  lemma StepKeepsInv(s: State, a: Step, rounds: nat)
    requires Inv(s, rounds) && Enabled(s, a)
    ensures Inv(Do(s, a), rounds)
  {
    hide Do, Enabled, OneOwner, WordTellsOwner, NoLostWakeup, Sane, Total;
    if a.Run? {
      RunKeepsOwner(s, a.i);
      RunKeepsWakeup(s, a.i);
      RunKeepsTotal(s, a.i, rounds);
    } else {
      WakeKeepsOwner(s, a);
      WakeKeepsWakeup(s, a);
      WakeKeepsTotal(s, a, rounds);
    }
  }

  lemma {:induction false} RunKeepsInv(s: State, run: seq<Step>, rounds: nat)
    requires Inv(s, rounds) && CanRun(s, run)
    ensures Inv(After(s, run), rounds) && |After(s, run).threads| == |s.threads|
    decreases |run|
  {
    hide Do, Enabled, Inv;
    if run != [] {
      StepKeepsInv(s, run[0], rounds);
      RunKeepsInv(Do(s, run[0]), run[1..], rounds);
    }
  }

  // ---- what follows for every run ------------------------------------------------------

  /**
    Over all interleavings of any number of threads: never two inside, the word
    is zero exactly while nobody holds the lock, and no increment is ever lost.
   */
  lemma MutualExclusion(n: nat, rounds: nat, run: seq<Step>)
    requires CanRun(Init(n, rounds), run)
    ensures var s := After(Init(n, rounds), run);
            && (forall i, j | 0 <= i < |s.threads| && 0 <= j < |s.threads| && Owns(s.threads[i]) && Owns(s.threads[j]) :: i == j)
            && 0 <= s.word <= 2
            && (s.word == 0 <==> forall i :: 0 <= i < |s.threads| ==> !Owns(s.threads[i]))
            && s.counter == Total(s.threads, rounds)
  {
    hide CanRun, After, Init, Total;
    InitInv(n, rounds);
    RunKeepsInv(Init(n, rounds), run, rounds);
  }

  lemma {:induction false} TotalFinished(ts: seq<Thread>, rounds: nat)
    requires forall i :: 0 <= i < |ts| ==> Finished(ts[i]) && ts[i].pc.Start?
    ensures Total(ts, rounds) == |ts| * rounds
  {
    if ts != [] {
      TotalFinished(ts[..|ts| - 1], rounds);
    }
  }

  /** When every thread is done the counter is exact. */
  lemma FinalCount(n: nat, rounds: nat, run: seq<Step>)
    requires CanRun(Init(n, rounds), run)
    requires forall i :: 0 <= i < |After(Init(n, rounds), run).threads| ==> Finished(After(Init(n, rounds), run).threads[i])
    ensures After(Init(n, rounds), run).counter == n * rounds
  {
    hide CanRun, After, Total, OneOwner, NoLostWakeup, WordTellsOwner;
    InitInv(n, rounds);
    RunKeepsInv(Init(n, rounds), run, rounds);
    TotalFinished(After(Init(n, rounds), run).threads, rounds);
  }

  /**
    No wakeup is ever lost: whenever a thread sleeps, the lock is held and marked
    contended, or somebody awake is bound to wake it or to mark the word.
   */
  lemma WakeupNeverLost(n: nat, rounds: nat, run: seq<Step>, i: nat)
    requires CanRun(Init(n, rounds), run)
    requires var s := After(Init(n, rounds), run); i < |s.threads| && Asleep(s.threads[i])
    ensures var s := After(Init(n, rounds), run);
            || (s.word == 2 && exists j :: 0 <= j < |s.threads| && Owns(s.threads[j]))
            || exists j :: 0 <= j < |s.threads| && Rescuer(s.threads[j])
  {
    hide CanRun, After, Init, Total;
    InitInv(n, rounds);
    RunKeepsInv(Init(n, rounds), run, rounds);
  }

  /** While anyone is unfinished, somebody is awake. */
  lemma SomeoneAwake(s: State, rounds: nat) returns (i: nat)
    requires Inv(s, rounds)
    requires exists j :: 0 <= j < |s.threads| && !Finished(s.threads[j])
    ensures i < |s.threads| && !Finished(s.threads[i]) && !s.threads[i].pc.Parked?
  {
    hide Total;
    var j :| 0 <= j < |s.threads| && !Finished(s.threads[j]);
    if !s.threads[j].pc.Parked? {
      i := j;
    } else {
      assert Asleep(s.threads[j]);
      if s.word == 2 {
        i :| 0 <= i < |s.threads| && Owns(s.threads[i]);
      } else {
        i :| 0 <= i < |s.threads| && Rescuer(s.threads[i]);
      }
    }
  }

  // ---- every state can still finish --------------------------------------------------

  /** Steps a thread needs at most, if it is let through. */
  function Ahead(t: Thread): nat
  {
    if t.left == 0 then 0 else
    (t.left - 1) * 13 +
    match t.pc
    case Start => 12
    case Mark => 11
    case Wait => 10
    case Compared => 9
    case Parked => 8
    case Exchange => 7
    case Enter => 6
    case Add(_) => 5
    case Leave => 4
    case Clear => 3
    case Wake => 2
  }

  function AheadAll(ts: seq<Thread>): nat
  {
    if ts == [] then 0 else AheadAll(ts[..|ts| - 1]) + Ahead(ts[|ts| - 1])
  }

  lemma {:induction false} AheadMono(a: seq<Thread>, b: seq<Thread>)
    requires |a| == |b| && forall i :: 0 <= i < |a| ==> Ahead(b[i]) <= Ahead(a[i])
    ensures AheadAll(b) <= AheadAll(a)
    ensures (exists i :: 0 <= i < |a| && Ahead(b[i]) < Ahead(a[i])) ==> AheadAll(b) < AheadAll(a)
  {
    hide Ahead;
    if a != [] {
      AheadMono(a[..|a| - 1], b[..|b| - 1]);
      if i :| 0 <= i < |a| && Ahead(b[i]) < Ahead(a[i]) {
        assert i < |a| - 1 ==> Ahead(b[..|b| - 1][i]) < Ahead(a[..|a| - 1][i]);
      }
    }
  }

  /** A thread that runs while it owns the lock, or while nobody does, gets closer to the end. */
  lemma RunGetsCloser(s: State, i: nat)
    requires WordTellsOwner(s) && Enabled(s, Run(i))
    requires Owns(s.threads[i]) || s.threads[i].pc.Compared? || s.word == 0
    ensures AheadAll(Do(s, Run(i)).threads) < AheadAll(s.threads)
  {
    var s' := Do(s, Run(i));
    assert Owns(s.threads[i]) ==> HasOwner(s);
    assert Ahead(s'.threads[i]) < Ahead(s.threads[i]);
    hide Ahead;
    AheadMono(s.threads, s'.threads);
  }

  lemma WakeGetsCloser(s: State, i: nat, woken: set<nat>)
    requires Enabled(s, WakeUp(i, woken))
    ensures AheadAll(Do(s, WakeUp(i, woken)).threads) < AheadAll(s.threads)
  {
    var s' := Do(s, WakeUp(i, woken));
    assert Ahead(s'.threads[i]) < Ahead(s.threads[i]);
    AheadMono(s.threads, s'.threads);
  }

  lemma PickStep(s: State, rounds: nat) returns (a: Step)
    requires Inv(s, rounds)
    requires exists j :: 0 <= j < |s.threads| && !Finished(s.threads[j])
    ensures Enabled(s, a) && AheadAll(Do(s, a).threads) < AheadAll(s.threads)
  {
    hide Total, AheadAll, Do;
    if i :| 0 <= i < |s.threads| && s.threads[i].pc.Compared? {
      a := Run(i);
      RunGetsCloser(s, i);
    } else if i :| 0 <= i < |s.threads| && Owns(s.threads[i]) {
      a := Run(i);
      RunGetsCloser(s, i);
    } else {
      var i := SomeoneAwake(s, rounds);
      if s.threads[i].pc.Wake? {
        var woken := set j | 0 <= j < |s.threads| && s.threads[j].pc.Parked?;
        a := WakeUp(i, woken);
        if j :| 0 <= j < |s.threads| && s.threads[j].pc.Parked? {
          assert j in woken;
        }
        WakeGetsCloser(s, i, woken);
      } else {
        a := Run(i);
        RunGetsCloser(s, i);
      }
    }
  }

  /** From every reachable state some schedule finishes every thread: no deadlock, ever. */
  lemma {:induction false} CanFinish(s: State, rounds: nat) returns (run: seq<Step>)
    requires Inv(s, rounds)
    ensures CanRun(s, run)
    ensures forall i :: 0 <= i < |After(s, run).threads| ==> Finished(After(s, run).threads[i])
    decreases AheadAll(s.threads)
  {
    hide Do, Enabled, Inv, AheadAll;
    if exists j :: 0 <= j < |s.threads| && !Finished(s.threads[j]) {
      var a := PickStep(s, rounds);
      StepKeepsInv(s, a, rounds);
      var rest := CanFinish(Do(s, a), rounds);
      run := [a] + rest;
      assert run[1..] == rest;
    } else {
      run := [];
    }
  }

  /** The same, said of the program: after any run at all, every thread can still finish, with the exact count. */
  lemma NeverDeadlocks(n: nat, rounds: nat, run: seq<Step>) returns (more: seq<Step>)
    requires CanRun(Init(n, rounds), run)
    ensures var s := After(Init(n, rounds), run);
            && CanRun(s, more)
            && (forall i :: 0 <= i < |After(s, more).threads| ==> Finished(After(s, more).threads[i]))
            && After(s, more).counter == n * rounds
  {
    hide CanRun, After, Total, OneOwner, NoLostWakeup, WordTellsOwner;
    InitInv(n, rounds);
    RunKeepsInv(Init(n, rounds), run, rounds);
    var s := After(Init(n, rounds), run);
    more := CanFinish(s, rounds);
    RunKeepsInv(s, more, rounds);
    TotalFinished(After(s, more).threads, rounds);
  }
}
