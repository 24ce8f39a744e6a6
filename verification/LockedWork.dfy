/** `pr11task4.c`, `pr10t2.c` and the safe half of `pr11task3.c`: threads that add to a shared
  total, each addition under a lock.

  The lock is a semaphore that starts at 1; a mutex is the same thing. Inside it the total is
  read and written in separate steps, and other threads may step in between.
 */
module LockedWork {
  import opened Runs
  import opened Tally

  /** `Scaled` adds `base * (i + 1)` in round `i`; `Counting` adds 1. */
  datatype Job = Scaled(rounds: nat, base: int) | Counting(rounds: nat)

  function Amount(job: Job, i: nat): int
  {
    if job.Scaled? then job.base * (i + 1) else 1
  }

  /** What the first `n` rounds of a job add. */
  function Pay(job: Job, n: nat): int
  {
    if n == 0 then 0 else Pay(job, n - 1) + Amount(job, n - 1)
  }

  /** base * (1 + ... + n), doubled, from base * (1 + ... + (n - 1)), doubled. */
  lemma NextTriangle(base: int, n: nat)
    requires n > 0
    ensures base * (n * (n + 1)) == base * ((n - 1) * n) + 2 * (base * n)
  {
    calc {
      base * (n * (n + 1));
      { assert n * (n + 1) == (n - 1) * n + 2 * n; }
      base * ((n - 1) * n + 2 * n);
      base * ((n - 1) * n) + 2 * (base * n);
    }
  }

  lemma {:induction false} PayIsClosed(job: Job, n: nat)
    ensures job.Scaled? ==> 2 * Pay(job, n) == job.base * (n * (n + 1))
    ensures job.Counting? ==> Pay(job, n) == n
  {
    if n > 0 {
      PayIsClosed(job, n - 1);
      if job.Scaled? {
        NextTriangle(job.base, n);
      }
    }
  }

  datatype Place = Outside | Entered | Loaded(v: int) | Stored

  datatype Thread = Thread(job: Job, done: nat, at: Place)

  datatype State = State(sem: nat, total: int, threads: seq<Thread>)

  ghost predicate Init(s: State)
  {
    && s.sem == 1 && s.total == 0
    && forall t :: 0 <= t < |s.threads| ==> s.threads[t].done == 0 && s.threads[t].at == Outside
  }

  function Goto(s: State, t: nat, th: Thread): State
    requires t < |s.threads|
  {
    s.(threads := s.threads[t := th])
  }

  function Step(s: State, t: nat): Option<State>
  {
    if t >= |s.threads| then None
    else
      var th := s.threads[t];
      match th.at
      case Outside =>
        if th.done < th.job.rounds && s.sem > 0 then Some(Goto(s, t, th.(at := Entered)).(sem := s.sem - 1)) else None
      case Entered => Some(Goto(s, t, th.(at := Loaded(s.total))))
      case Loaded(v) => Some(Goto(s, t, th.(at := Stored)).(total := v + Amount(th.job, th.done)))
      case Stored => Some(Goto(s, t, Thread(th.job, th.done + 1, Outside)).(sem := s.sem + 1))
  }

  // ---------------------------------------------------------------- invariant

  function InLock(th: Thread): int { if th.at == Outside then 0 else 1 }

  function Added(th: Thread): int
  {
    Pay(th.job, if th.at == Stored then th.done + 1 else th.done)
  }

  function Owed(th: Thread): int { Pay(th.job, th.job.rounds) }

  ghost predicate ThreadOk(s: State, th: Thread)
  {
    && th.done <= th.job.rounds
    && (th.at != Outside ==> th.done < th.job.rounds)
    && (th.at.Loaded? ==> th.at.v == s.total)
  }

  ghost predicate Inv(s: State)
  {
    && s.sem + Sum(InLock, s.threads) == 1
    && s.total == Sum(Added, s.threads)
    && forall t :: 0 <= t < |s.threads| ==> ThreadOk(s, s.threads[t])
  }

  /** Mutual exclusion. */
  lemma OneInLock(s: State, t: nat, u: nat)
    requires s.sem + Sum(InLock, s.threads) == 1
    requires t < |s.threads| && u < |s.threads| && t != u && s.threads[t].at != Outside
    ensures s.threads[u].at == Outside
  {
    SumBoundTwo(InLock, s.threads, if t < u then t else u, if t < u then u else t);
  }

  lemma StepInv(s: State, t: nat)
    requires Inv(s) && Step(s, t).Some?
    ensures Inv(Step(s, t).value)
    ensures Sum(Owed, Step(s, t).value.threads) == Sum(Owed, s.threads)
  {
    var s' := Step(s, t).value;
    assert ThreadOk(s, s.threads[t]);
    SumUpdate(InLock, s.threads, t, s'.threads[t]);
    SumUpdate(Added, s.threads, t, s'.threads[t]);
    SumUpdate(Owed, s.threads, t, s'.threads[t]);
    forall u | 0 <= u < |s'.threads|
      ensures ThreadOk(s', s'.threads[u])
    {
      assert ThreadOk(s, s.threads[u]);
      if u != t && s.threads[t].at != Outside {
        OneInLock(s, t, u);
      }
    }
  }

  // ---------------------------------------------------------------- every run

  ghost predicate Complete(s: State)
  {
    forall t :: 0 <= t < |s.threads| ==> s.threads[t].at == Outside && s.threads[t].done == s.threads[t].job.rounds
  }

  ghost predicate Stuck(s: State)
  {
    forall t :: Step(s, t).None?
  }

  function Remaining(th: Thread): int
  {
    4 * (th.job.rounds - th.done) - match th.at case Outside => 0 case Entered => 1 case Loaded(_) => 2 case Stored => 3
  }

  function TotalRemaining(s: State): int { Sum(Remaining, s.threads) }

  lemma StuckIsComplete(s: State)
    requires Inv(s) && Stuck(s)
    ensures Complete(s)
  {
    forall t | 0 <= t < |s.threads|
      ensures s.threads[t].at == Outside
    {
      assert Step(s, t).None?;
    }
    SumZero(InLock, s.threads);
    forall t | 0 <= t < |s.threads|
      ensures s.threads[t].done == s.threads[t].job.rounds
    {
      assert Step(s, t).None? && ThreadOk(s, s.threads[t]);
    }
  }

  ghost predicate InvOwing(owed: int, s: State)
  {
    Inv(s) && Sum(Owed, s.threads) == owed
  }

  lemma StepCounts(owed: int, s: State, t: nat)
    requires InvOwing(owed, s) && Step(s, t).Some?
    ensures InvOwing(owed, Step(s, t).value) && TotalRemaining(Step(s, t).value) < TotalRemaining(s)
  {
    StepInv(s, t);
    SumUpdate(Remaining, s.threads, t, Step(s, t).value.threads[t]);
  }

  lemma {:induction false} RunCounts(s: State, schedule: seq<nat>)
    requires Inv(s) && Exec(Step, s, schedule).Some?
    ensures var end := Exec(Step, s, schedule).value;
            |schedule| + TotalRemaining(end) <= TotalRemaining(s) && InvOwing(Sum(Owed, s.threads), end)
  {
    var owed := Sum(Owed, s.threads);
    var inv := (x: State) => InvOwing(owed, x);
    forall x, t | inv(x) && Step(x, t).Some?
      ensures inv(Step(x, t).value) && TotalRemaining(Step(x, t).value) < TotalRemaining(x)
    {
      StepCounts(owed, x, t);
    }
    Bounded(Step, inv, TotalRemaining, s, schedule);
    Invariant(Step, inv, s, schedule);
  }

  lemma EndOfRun(s: State)
    requires Inv(s)
    ensures TotalRemaining(s) >= 0
    ensures Stuck(s) <==> Complete(s)
    ensures Complete(s) ==> s.total == Sum(Owed, s.threads)
  {
    forall t | 0 <= t < |s.threads|
      ensures Remaining(s.threads[t]) >= 0
    {
      assert ThreadOk(s, s.threads[t]);
    }
    SumNonNegative(Remaining, s.threads);
    if Stuck(s) {
      StuckIsComplete(s);
    }
    if Complete(s) {
      SumSame(s.threads);
    }
  }

  lemma {:induction false} SumSame(threads: seq<Thread>)
    requires forall t :: 0 <= t < |threads| ==> threads[t].at == Outside && threads[t].done == threads[t].job.rounds
    ensures Sum(Added, threads) == Sum(Owed, threads)
  {
    if threads != [] {
      SumSame(threads[1..]);
    }
  }

  /** Whatever the schedule, it ends, and where it ends the total is what the jobs add up to:
      no addition is lost and the order does not matter. */
  lemma {:induction false} ScheduleIndependent(s: State, schedule: seq<nat>)
    requires Init(s) && Exec(Step, s, schedule).Some?
    ensures |schedule| <= TotalRemaining(s)
    ensures Stuck(Exec(Step, s, schedule).value) <==> Complete(Exec(Step, s, schedule).value)
    ensures Complete(Exec(Step, s, schedule).value) ==>
              Exec(Step, s, schedule).value.total == Sum(Owed, s.threads)
  {
    SumZero(InLock, s.threads);
    SumZero(Added, s.threads);
    RunCounts(s, schedule);
    EndOfRun(Exec(Step, s, schedule).value);
  }

  // ---------------------------------------------------------------- the code

  function PayAll(jobs: seq<Job>): int
  {
    Sum((job: Job) => Pay(job, job.rounds), jobs)
  }

  class Accumulator {
    var sharedResult: int

    constructor ()
      ensures sharedResult == 0
    {
      sharedResult := 0;
    }

    /** The loop of a worker, run without the others. */
    method Worker(job: Job)
      modifies this
      ensures sharedResult == old(sharedResult) + Pay(job, job.rounds)
    {
      for i := 0 to job.rounds
        invariant sharedResult == old(sharedResult) + Pay(job, i)
      {
        var localCalc := Amount(job, i);
        sharedResult := sharedResult + localCalc;
      }
    }

    /** The sequential mode of `demonstrate_execution_modes`: each worker is joined before the
        next is created. */
    method Sequential(jobs: seq<Job>)
      modifies this
      ensures sharedResult == PayAll(jobs)
    {
      sharedResult := 0;
      for i := 0 to |jobs|
        invariant sharedResult == PayAll(jobs[..i])
      {
        assert jobs[..i + 1] == jobs[..i] + [jobs[i]];
        SumAppend((job: Job) => Pay(job, job.rounds), jobs[..i], jobs[i]);
        Worker(jobs[i]);
      }
      assert jobs[..|jobs|] == jobs;
    }
  }

  lemma {:induction false} OwedIsPayAll(threads: seq<Thread>, jobs: seq<Job>)
    requires |threads| == |jobs| && forall t :: 0 <= t < |jobs| ==> threads[t].job == jobs[t]
    ensures Sum(Owed, threads) == PayAll(jobs)
  {
    if jobs != [] {
      OwedIsPayAll(threads[1..], jobs[1..]);
    }
  }

  /** Parallel and sequential mode agree: a complete run of the jobs from a total of 0 leaves
      what `Accumulator.Sequential` leaves. */
  lemma {:induction false} ParallelIsSequential(s: State, jobs: seq<Job>, schedule: seq<nat>)
    requires Init(s) && |s.threads| == |jobs| && forall t :: 0 <= t < |jobs| ==> s.threads[t].job == jobs[t]
    requires Exec(Step, s, schedule).Some? && Complete(Exec(Step, s, schedule).value)
    ensures Exec(Step, s, schedule).value.total == PayAll(jobs)
  {
    ScheduleIndependent(s, schedule);
    OwedIsPayAll(s.threads, jobs);
  }
}
