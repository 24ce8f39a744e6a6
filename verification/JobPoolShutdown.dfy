/** Shutting down the worker pool of `proxy2.c`. The flag and the broadcast come without the queue
  mutex, so they can fall between a worker's check and its sleep, and then the worker never
  leaves.
 */
module JobPoolShutdown {
  import opened JobPool
  import opened Runs
  import opened Tally

  lemma StepAfterShutdown(s: State, e: Event)
    requires s.shutdown && Step(s, e).Some?
    ensures Step(s, e).value.shutdown && Step(s, e).value.log.taken == s.log.taken
  {
  }

  /** Once `shutdown` is set no worker takes another job, whatever is still queued or added. */
  lemma {:induction false} NoJobAfterShutdown(s: State, schedule: seq<Event>)
    requires s.shutdown && Exec(Step, s, schedule).Some?
    ensures Exec(Step, s, schedule).value.shutdown && Exec(Step, s, schedule).value.log.taken == s.log.taken
  {
    var inv := (x: State) => x.shutdown && x.log.taken == s.log.taken;
    forall x, e | inv(x) && Step(x, e).Some?
      ensures inv(Step(x, e).value)
    {
      StepAfterShutdown(x, e);
    }
    Invariant(Step, inv, s, schedule);
  }

  /** The broadcast leaves nobody asleep. */
  lemma BroadcastWakesAll(s: State, t: nat, woken: nat)
    requires t < |s.pcs| && s.pcs[t] == Acceptor(Broadcast)
    ensures Step(s, Go(t, woken)).Some?
    ensures forall u :: 0 <= u < |s.pcs| ==> Step(s, Go(t, woken)).value.pcs[u] != Worker(Asleep)
  {
  }

  /** A thread that is asleep or about to be. */
  predicate Drowsy(pc: Pc) { pc == Worker(CondWait) || pc == Worker(Asleep) }

  /** After the broadcast of the only acceptor, `t`: the workers in `late` have yet to fall asleep
      or have done so, and nobody else ever will. */
  ghost predicate WindingDown(t: nat, late: set<nat>, s: State)
  {
    && LockInv(s) && s.shutdown && t < |s.pcs| && s.pcs[t] == Acceptor(Finished)
    && forall w :: 0 <= w < |s.pcs| && w != t ==> s.pcs[w].Worker? && (Drowsy(s.pcs[w]) <==> w in late)
  }

  /** The steps of a worker to its exit or its sleep. */
  function ExitRank(pc: Pc): int
  {
    if pc.Acceptor? then 0
    else
      match pc.stage
      case Exited | Asleep => 0
      case ExitUnlock | CondWait => 1
      case Check => 2
      case WaitForMutex => 3
      case Close(_) => 4
      case Serve(_) => 5
      case WorkerUnlock(_) => 6
  }

  function ExitWork(s: State): int { Sum(ExitRank, s.pcs) }

  lemma WindsDown(t: nat, late: set<nat>, s: State, m: Move)
    requires WindingDown(t, late, s) && Next(s, m).Some?
    ensures WindingDown(t, late, Next(s, m).value) && |Next(s, m).value.pcs| == |s.pcs|
    ensures ExitWork(Next(s, m).value) < ExitWork(s)
  {
    var s' := Next(s, m).value;
    WorkerIsLocal(s, m.t);
    LocalKeepsLocks(s, m.t, s');
    SumUpdate(ExitRank, s.pcs, m.t, s'.pcs[m.t]);
  }

  lemma LocalKeepsLocks(s: State, t: nat, s': State)
    requires LockInv(s) && Local(s, t, s')
    ensures LockInv(s')
  {
    var w :| 0 <= w < |s.pcs| && s.pcs[w].Worker?;
    assert s'.pcs[w].Worker?;
  }

  lemma RestMeansGone(t: nat, late: set<nat>, s: State)
    requires WindingDown(t, late, s) && Stuck(s)
    ensures forall w :: 0 <= w < |s.pcs| && w != t ==> s.pcs[w] == if w in late then Worker(Asleep) else Worker(Exited)
  {
    if s.mutex.Some? {
      HolderMoves(s);
    }
    forall w | 0 <= w < |s.pcs| && w != t
      ensures s.pcs[w] == if w in late then Worker(Asleep) else Worker(Exited)
    {
      assert Next(s, Move(w, 0)).None?;
    }
  }

  lemma {:induction false} WindingDownEnds(t: nat, late: set<nat>, s: State, moves: seq<Move>)
    requires WindingDown(t, late, s) && Exec(Next, s, moves).Some?
    ensures var end := Exec(Next, s, moves).value;
            |moves| <= ExitWork(s) && WindingDown(t, late, end) && |end.pcs| == |s.pcs|
  {
    var inv := (x: State) => WindingDown(t, late, x) && |x.pcs| == |s.pcs|;
    forall x, m | inv(x) && Next(x, m).Some?
      ensures inv(Next(x, m).value) && ExitWork(Next(x, m).value) < ExitWork(x)
    {
      WindsDown(t, late, x, m);
    }
    Bounded(Next, inv, ExitWork, s, moves);
    Invariant(Next, inv, s, moves);
    SumNonNegative(ExitRank, Exec(Next, s, moves).value.pcs);
  }

  /** The workers who stand between their check and their sleep. */
  function Late(s: State): set<nat>
  {
    set w: nat | w < |s.pcs| && s.pcs[w] == Worker(CondWait)
  }

  lemma WindingDownBegins(s: State, t: nat)
    requires Inv(s) && s.shutdown && t < |s.pcs| && s.pcs[t] == Acceptor(Broadcast)
    requires forall w :: 0 <= w < |s.pcs| && w != t ==> s.pcs[w].Worker?
    ensures Step(s, Go(t, 0)).Some? && WindingDown(t, Late(s), Step(s, Go(t, 0)).value)
  {
    BroadcastKeepsInv(s, t, 0);
  }

  /** With one acceptor, and without spurious wakeups: after its broadcast every run is finite, and
      at its end a worker has exited if and only if it did not stand between its check and its
      sleep at the broadcast. One that did sleeps for ever. */
  lemma {:induction false} WorkersExitUnlessLate(s: State, t: nat, moves: seq<Move>)
    requires Inv(s) && s.shutdown && t < |s.pcs| && s.pcs[t] == Acceptor(Broadcast)
    requires forall w :: 0 <= w < |s.pcs| && w != t ==> s.pcs[w].Worker?
    requires Exec(Next, Step(s, Go(t, 0)).value, moves).Some?
    ensures var woken := Step(s, Go(t, 0)).value;
            var end := Exec(Next, woken, moves).value;
            && |moves| <= ExitWork(woken) && |end.pcs| == |s.pcs|
            && (Stuck(end) ==>
                  forall w :: 0 <= w < |s.pcs| && w != t ==>
                    if s.pcs[w] == Worker(CondWait) then end.pcs[w] == Worker(Asleep)
                    else end.pcs[w] == Worker(Exited))
  {
    var woken := Step(s, Go(t, 0)).value;
    WindingDownBegins(s, t);
    WindingDownEnds(t, Late(s), woken, moves);
    var end := Exec(Next, woken, moves).value;
    if Stuck(end) {
      RestMeansGone(t, Late(s), end);
    }
  }

  /** A pool whose only worker has looked, but not yet gone to sleep, when it is shut down. */
  lemma {:induction false} LostWakeupAtShutdown(s: State)
    requires Init(s) && s.pcs == [Acceptor(Ready), Worker(WaitForMutex)]
    ensures var end := s.(pcs := [Acceptor(Finished), Worker(Asleep)], shutdown := true);
            Reaches(Step, s, end) && Stuck(end)
  {
    var end := s.(pcs := [Acceptor(Finished), Worker(Asleep)], shutdown := true);
    LooksBeforeShutdown(s);
    SleepsAfterShutdown(s);
    ReachesOn(Step, s, s.(pcs := [Acceptor(Ready), Worker(CondWait)], mutex := Some(1)), end);
    SleeperIsStuck(end);
  }

  lemma SleeperIsStuck(s: State)
    requires s.pcs == [Acceptor(Finished), Worker(Asleep)]
    ensures Stuck(s)
  {
  }

  lemma {:induction false} LooksBeforeShutdown(s: State)
    requires Init(s) && s.pcs == [Acceptor(Ready), Worker(WaitForMutex)]
    ensures Reaches(Step, s, s.(pcs := [Acceptor(Ready), Worker(CondWait)], mutex := Some(1)))
  {
    var locked := s.(pcs := [Acceptor(Ready), Worker(Check)], mutex := Some(1));
    assert s.pcs[1 := Worker(Check)] == locked.pcs;
    assert locked.pcs[1 := Worker(CondWait)] == [Acceptor(Ready), Worker(CondWait)];
    ReachesStay(Step, s);
    ReachesStep(Step, s, s, Go(1, 0), locked);
    ReachesStep(Step, s, locked, Go(1, 0), locked.(pcs := [Acceptor(Ready), Worker(CondWait)]));
  }

  lemma {:induction false} SleepsAfterShutdown(s: State)
    requires Init(s) && s.pcs == [Acceptor(Ready), Worker(WaitForMutex)]
    ensures Reaches(Step, s.(pcs := [Acceptor(Ready), Worker(CondWait)], mutex := Some(1)),
                    s.(pcs := [Acceptor(Finished), Worker(Asleep)], shutdown := true))
  {
    var s0 := s.(pcs := [Acceptor(Ready), Worker(CondWait)], mutex := Some(1));
    var s1 := s0.(pcs := [Acceptor(Broadcast), Worker(CondWait)], shutdown := true);
    var s2 := s1.(pcs := [Acceptor(Finished), Worker(CondWait)]);
    var s3 := s2.(pcs := [Acceptor(Finished), Worker(Asleep)], mutex := None);
    assert s0.pcs[0 := Acceptor(Broadcast)] == s1.pcs;
    assert WakeAll(s1.pcs)[0 := Acceptor(Finished)] == s2.pcs;
    assert s2.pcs[1 := Worker(Asleep)] == s3.pcs;
    ReachesStay(Step, s0);
    ReachesStep(Step, s0, s0, ShutDown(0), s1);
    ReachesStep(Step, s0, s1, Go(0, 0), s2);
    ReachesStep(Step, s0, s2, Go(1, 0), s3);
  }
}
