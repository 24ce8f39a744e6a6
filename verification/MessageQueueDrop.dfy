/** What `mymsqdrop` is for: it releases every blocked caller, for good.
 */
module MessageQueueDrop {
  import opened Runs
  import opened Tally
  import opened MessageRing
  import opened MessageQueue
  import opened MessageQueueFifo

  ghost predicate DropFinished(s: State)
  {
    s.dropped && !Dropping(Holder(s))
  }

  /** Once its loops are done, a drop has left each semaphore with as many permits as the
      queue has cells, counting those in the hands of calls ... */
  lemma PermitsAfterDrop(s: State)
    requires Inv(s) && DropFinished(s)
    ensures s.empty + Sum(EmptyHeld, s.pcs) >= Capacity(s.ring)
    ensures s.full + Sum(FullHeld, s.pcs) >= Capacity(s.ring)
  {
  }

  ghost predicate FrozenAs(ring: Ring, s: State)
  {
    Inv(s) && DropFinished(s) && s.ring == ring
  }

  lemma StepKeepsFrozen(ring: Ring, s: State, e: Event)
    requires FrozenAs(ring, s) && Step(s, e).Some?
    ensures FrozenAs(ring, Step(s, e).value)
  {
    StepIsLocal(s, e);
    StepInv(s, e);
  }

  /** ... and that stays so for ever, with `buffer`, `head`, `tail` and `count` as they are. */
  lemma {:induction false} DropIsForever(s: State, schedule: seq<Event>)
    requires Inv(s) && DropFinished(s) && Exec(Step, s, schedule).Some?
    ensures var end := Exec(Step, s, schedule).value;
            && Inv(end) && DropFinished(end) && end.ring == s.ring
            && end.empty + Sum(EmptyHeld, end.pcs) >= Capacity(s.ring)
            && end.full + Sum(FullHeld, end.pcs) >= Capacity(s.ring)
  {
    var inv := (x: State) => FrozenAs(s.ring, x);
    forall x, e | inv(x) && Step(x, e).Some?
      ensures inv(Step(x, e).value)
    {
      StepKeepsFrozen(s.ring, x, e);
    }
    Invariant(Step, inv, s, schedule);
    PermitsAfterDrop(Exec(Step, s, schedule).value);
  }

  /** A drop on its way out, or past the test of the flag, finds it set. */
  ghost predicate DropSeen(s: State)
  {
    && (forall t :: 0 <= t < |s.pcs| && s.pcs[t] == Drop(DropReturn) ==> DropFinished(s))
    && forall i :: 0 <= i < |s.log.returned| && s.log.returned[i].call.DropCall? ==> DropFinished(s)
  }

  lemma FinishedStays(s: State, e: Event)
    requires Inv(s) && DropFinished(s) && Step(s, e).Some?
    ensures DropFinished(Step(s, e).value)
  {
    StepKeepsFrozen(s.ring, s, e);
  }

  lemma {:induction false} StepDropSeen(s: State, e: Event)
    requires Inv(s) && DropSeen(s) && Step(s, e).Some?
    ensures DropSeen(Step(s, e).value)
  {
    var s' := Step(s, e).value;
    if DropFinished(s) {
      FinishedStays(s, e);
    } else {
      StepIsLocal(s, e);
      StepInv(s, e);
      StepMovesOwn(s, e);
      assert forall i :: 0 <= i < |s.log.returned| ==> !s.log.returned[i].call.DropCall?;
      if e.Advance? && s.pcs[e.t].Drop? {
        DropOnItsWay(s, e.t);
      }
    }
  }

  /** Until the loops of the first drop are done no other comes to its end. */
  lemma {:induction false} DropOnItsWay(s: State, t: nat)
    requires Inv(s) && DropSeen(s) && !DropFinished(s)
    requires t < |s.pcs| && s.pcs[t].Drop? && CallStep(s, t).Some?
    ensures var s' := CallStep(s, t).value;
            && |s'.pcs| == |s.pcs|
            && (s'.log.returned != s.log.returned || s'.pcs[t] == Drop(DropReturn) ==> DropFinished(s'))
  {
    StepIsLocal(s, Advance(t));
    StepLockInv(s, Advance(t));
    assert Step(s, Advance(t)) == CallStep(s, t);
    if HoldsMutex(s.pcs[t]) {
      assert Holder(s) == s.pcs[t];
    }
  }

  /** In every run, once any call of `mymsqdrop` has returned the queue is dropped and all the
      posts have been made. */
  lemma {:induction false} DropReturnsWhenDone(s: State, schedule: seq<Event>, i: nat)
    requires Init(s) && Exec(Step, s, schedule).Some?
    requires i < |Exec(Step, s, schedule).value.log.returned|
    requires Exec(Step, s, schedule).value.log.returned[i].call.DropCall?
    ensures DropFinished(Exec(Step, s, schedule).value)
  {
    InitInv(s);
    var inv := (x: State) => Inv(x) && DropSeen(x);
    forall x, e | inv(x) && Step(x, e).Some?
      ensures inv(Step(x, e).value)
    {
      StepInv(x, e);
      StepDropSeen(x, e);
    }
    Invariant(Step, inv, s, schedule);
  }

  /** A call that has not passed its critical section, or a thread whose last call returned 0. */
  predicate ReturnsZero(pc: Pc)
  {
    match pc
    case Idle(ret) => ret == 0
    case Put(_, at) => !AfterBody(at)
    case Get(_, at) => !AfterBody(at)
    case Drop(_) => true
  }

  ghost predicate DroppedFor(t: nat, s: State)
  {
    s.dropped && t < |s.pcs| && ReturnsZero(s.pcs[t])
  }

  lemma StepKeepsZero(t: nat, s: State, e: Event)
    requires DroppedFor(t, s) && Step(s, e).Some?
    ensures DroppedFor(t, Step(s, e).value)
  {
    StepIsLocal(s, e);
  }

  /** Every call that reaches its critical section after the drop returns 0, and so does
      every call started later. */
  lemma {:induction false} ZeroAfterDrop(s: State, t: nat, schedule: seq<Event>)
    requires s.dropped && t < |s.pcs| && ReturnsZero(s.pcs[t])
    requires Exec(Step, s, schedule).Some?
    ensures var end := Exec(Step, s, schedule).value;
            t < |end.pcs| && ReturnsZero(end.pcs[t])
  {
    var inv := (x: State) => DroppedFor(t, x);
    forall x, e | inv(x) && Step(x, e).Some?
      ensures inv(Step(x, e).value)
    {
      StepKeepsZero(t, x, e);
    }
    Invariant(Step, inv, s, schedule);
  }

  // ---------------------------------------------------------------- every call returns

  /** Steps a call can still take; a drop that has yet to read a semaphore is charged for the
      largest loop it can start. */
  function Rank(size: nat, pc: Pc): nat
  {
    match pc
    case Idle(_) => 0
    case Put(_, at) => StageRank(at)
    case Get(_, at) => StageRank(at)
    case Drop(stage) =>
      match stage
      case DropLock => 4 * size + 8
      case DropBody => 4 * size + 7
      case DropReturn => 1
      case ReadEmpty => 4 * size + 6
      case PostingEmpty(left) => 3 * size + 5 + left
      case ReadFull => 3 * size + 4
      case PostingFull(left) => 2 * size + 3 + left
      case FinalFull(left) => 2 * left + 1
      case FinalEmpty(left) => 2 * left + 2
  }

  function StageRank(at: Stage): nat
  {
    match at
    case Wait => 5
    case Lock => 4
    case Body => 3
    case Unlock(_, _) | AbortUnlock => 2
    case Post(_, _) | AbortPost => 1
  }

  function RankIn(size: nat): Pc -> int { pc => Rank(size, pc) }

  function Pending(s: State): int { Sum(RankIn(Capacity(s.ring)), s.pcs) }

  lemma CallLowersRank(s: State, t: nat)
    requires t < |s.pcs| && !s.pcs[t].Drop? && CallStep(s, t).Some?
    ensures t < |CallStep(s, t).value.pcs|
    ensures Rank(Capacity(s.ring), CallStep(s, t).value.pcs[t]) < Rank(Capacity(s.ring), s.pcs[t])
  {
  }

  lemma PostLowersRank(s: State, t: nat)
    requires t < |s.pcs| && s.pcs[t].Drop? && Posting(s.pcs[t].stage) && CallStep(s, t).Some?
    ensures t < |CallStep(s, t).value.pcs|
    ensures Rank(Capacity(s.ring), CallStep(s, t).value.pcs[t]) < Rank(Capacity(s.ring), s.pcs[t])
  {
  }

  lemma DropLowersRank(s: State, t: nat)
    requires t < |s.pcs| && s.pcs[t].Drop? && !Posting(s.pcs[t].stage) && CallStep(s, t).Some?
    requires s.pcs[t].stage.ReadFull? ==> s.full <= Capacity(s.ring)
    ensures t < |CallStep(s, t).value.pcs|
    ensures Rank(Capacity(s.ring), CallStep(s, t).value.pcs[t]) < Rank(Capacity(s.ring), s.pcs[t])
  {
    var pc' := CallStep(s, t).value.pcs[t];
    assert pc'.Idle? || pc'.Drop?;
  }

  lemma StepLowersRank(s: State, t: nat)
    requires Inv(s) && CallStep(s, t).Some?
    ensures Local(s, t, CallStep(s, t).value)
    ensures Rank(Capacity(s.ring), CallStep(s, t).value.pcs[t]) < Rank(Capacity(s.ring), s.pcs[t])
  {
    assert Step(s, Advance(t)) == CallStep(s, t);
    StepIsLocal(s, Advance(t));
    SumNonNegative(FullHeld, s.pcs);
    if s.pcs[t].Drop? && Posting(s.pcs[t].stage) {
      PostLowersRank(s, t);
    } else if s.pcs[t].Drop? {
      DropLowersRank(s, t);
    } else {
      CallLowersRank(s, t);
    }
  }

  lemma StepLowersPending(s: State, t: nat)
    requires Inv(s) && CallStep(s, t).Some?
    ensures Inv(CallStep(s, t).value) && Pending(CallStep(s, t).value) < Pending(s)
  {
    var s' := CallStep(s, t).value;
    assert Step(s, Advance(t)) == CallStep(s, t);
    StepInv(s, Advance(t));
    StepLowersRank(s, t);
    SumUpdate(RankIn(Capacity(s.ring)), s.pcs, t, s'.pcs[t]);
  }

  ghost predicate AllIdle(s: State)
  {
    forall t :: 0 <= t < |s.pcs| ==> s.pcs[t].Idle?
  }

  ghost predicate Stuck(s: State)
  {
    forall t :: 0 <= t < |s.pcs| ==> CallStep(s, t).None?
  }

  /** Whoever holds the mutex can go on. */
  lemma HolderMoves(s: State)
    requires LockInv(s) && s.mutex.Some?
    ensures s.mutex.value < |s.pcs| && CallStep(s, s.mutex.value).Some?
  {
    assert HoldsMutex(s.pcs[s.mutex.value]);
  }

  /** A stuck state has no permit in flight and a free mutex: every pending call waits on a
      semaphore that is at 0. */
  lemma StuckMeansWaiting(s: State)
    requires Inv(s) && Stuck(s)
    ensures s.mutex.None? && Sum(EmptyHeld, s.pcs) == 0 && Sum(FullHeld, s.pcs) == 0
    ensures forall t :: 0 <= t < |s.pcs| && !s.pcs[t].Idle? ==>
              Waiting(s.pcs[t]) && (if s.pcs[t].Put? then s.empty == 0 else s.full == 0)
  {
    if s.mutex.Some? {
      HolderMoves(s);
    }
    forall t | 0 <= t < |s.pcs| && !s.pcs[t].Idle?
      ensures Waiting(s.pcs[t]) && (if s.pcs[t].Put? then s.empty == 0 else s.full == 0)
    {
      assert CallStep(s, t).None?;
    }
    SumZero(EmptyHeld, s.pcs);
    SumZero(FullHeld, s.pcs);
  }

  /** Without a drop the only way to be stuck is the intended one: gets on an empty queue or
      puts on a full one. */
  lemma StuckBeforeDrop(s: State)
    requires Inv(s) && !s.dropped && Stuck(s)
    ensures forall t :: 0 <= t < |s.pcs| && !s.pcs[t].Idle? ==>
              if s.ring.count == 0 then s.pcs[t].Get? && Waiting(s.pcs[t])
              else s.ring.count == Capacity(s.ring) && s.pcs[t].Put? && Waiting(s.pcs[t])
  {
    StuckMeansWaiting(s);
    PermitsBeforeDrop(s);
  }

  /** From the moment `dropped` is set no call stays blocked: whatever calls are pending, every
      run of them is finite, and where none of them can move they have all returned. */
  lemma {:induction false} DropReleasesEveryCall(s: State, schedule: seq<nat>)
    requires Inv(s) && s.dropped && Exec(CallStep, s, schedule).Some?
    ensures |schedule| <= Pending(s)
    ensures Stuck(Exec(CallStep, s, schedule).value) ==> AllIdle(Exec(CallStep, s, schedule).value)
  {
    var inv := (x: State) => Inv(x) && x.dropped;
    forall x, t | inv(x) && CallStep(x, t).Some?
      ensures inv(CallStep(x, t).value) && Pending(CallStep(x, t).value) < Pending(x)
    {
      StepLowersPending(x, t);
      StepLowersRank(x, t);
    }
    Bounded(CallStep, inv, Pending, s, schedule);
    Invariant(CallStep, inv, s, schedule);
    var end := Exec(CallStep, s, schedule).value;
    SumNonNegative(RankIn(Capacity(end.ring)), end.pcs);
    if Stuck(end) {
      StuckMeansWaiting(end);
      PermitsAfterDrop(end);
    }
  }

  // ---------------------------------------------------------------- a drop on its own

  /** `s` with thread `t` at `pc` and so many posts made. */
  function Posted(s: State, t: nat, pc: Pc, empties: nat, fulls: nat): State
    requires t < |s.pcs|
  {
    Goto(s, t, pc).(empty := s.empty + empties, full := s.full + fulls,
                    log := s.log.(postedEmpty := s.log.postedEmpty + empties, postedFull := s.log.postedFull + fulls))
  }

  /** `s` after the drop of thread `t` has made so many posts and returned. */
  function Unlocked(s: State, t: nat, empties: nat, fulls: nat): State
    requires t < |s.pcs|
  {
    Returned(Posted(s, t, Drop(FinalFull(0)), empties, fulls), t, 0, None).(mutex := None)
  }

  lemma {:induction false} EmptyLoopAlone(s: State, t: nat, left: nat, s': State)
    requires t < |s.pcs| && s.pcs[t] == Drop(PostingEmpty(left))
    requires Alone(CallStep, t, Posted(s, t, Drop(PostingEmpty(0)), left, 0), s')
    decreases left
    ensures Alone(CallStep, t, s, s')
  {
    if left == 0 {
      assert Posted(s, t, Drop(PostingEmpty(0)), 0, 0) == s;
    } else {
      var mid := CallStep(s, t).value;
      assert Posted(mid, t, Drop(PostingEmpty(0)), left - 1, 0) == Posted(s, t, Drop(PostingEmpty(0)), left, 0);
      EmptyLoopAlone(mid, t, left - 1, s');
      AloneStep(CallStep, t, s, mid, s');
    }
  }

  lemma {:induction false} FullLoopAlone(s: State, t: nat, left: nat, s': State)
    requires t < |s.pcs| && s.pcs[t] == Drop(PostingFull(left))
    requires Alone(CallStep, t, Posted(s, t, Drop(PostingFull(0)), 0, left), s')
    decreases left
    ensures Alone(CallStep, t, s, s')
  {
    if left == 0 {
      assert Posted(s, t, Drop(PostingFull(0)), 0, 0) == s;
    } else {
      var mid := CallStep(s, t).value;
      assert Posted(mid, t, Drop(PostingFull(0)), 0, left - 1) == Posted(s, t, Drop(PostingFull(0)), 0, left);
      FullLoopAlone(mid, t, left - 1, s');
      AloneStep(CallStep, t, s, mid, s');
    }
  }

  lemma FinalRound(s: State, t: nat, left: nat)
    requires t < |s.pcs| && s.pcs[t] == Drop(FinalFull(left)) && left > 0
    ensures var half := Posted(s, t, Drop(FinalEmpty(left - 1)), 0, 1);
            && CallStep(s, t) == Some(half)
            && CallStep(half, t) == Some(Posted(s, t, Drop(FinalFull(left - 1)), 1, 1))
  {
    var between, next := Drop(FinalEmpty(left - 1)), Drop(FinalFull(left - 1));
    assert s.pcs[t := between][t := next] == s.pcs[t := next];
  }

  lemma {:induction false} FinalLoopAlone(s: State, t: nat, left: nat, s': State)
    requires t < |s.pcs| && s.pcs[t] == Drop(FinalFull(left))
    requires Alone(CallStep, t, Posted(s, t, Drop(FinalFull(0)), left, left), s')
    decreases left
    ensures Alone(CallStep, t, s, s')
  {
    if left == 0 {
      assert Posted(s, t, Drop(FinalFull(0)), 0, 0) == s;
    } else {
      var half := Posted(s, t, Drop(FinalEmpty(left - 1)), 0, 1);
      var mid := Posted(s, t, Drop(FinalFull(left - 1)), 1, 1);
      FinalRound(s, t, left);
      assert Posted(mid, t, Drop(FinalFull(0)), left - 1, left - 1) == Posted(s, t, Drop(FinalFull(0)), left, left);
      FinalLoopAlone(mid, t, left - 1, s');
      AloneStep(CallStep, t, half, mid, s');
      AloneStep(CallStep, t, s, half, s');
    }
  }

  lemma {:induction false} FirstLoopsAlone(s: State, t: nat, s': State)
    requires t < |s.pcs| && s.pcs[t] == Drop(ReadEmpty) && s.empty <= Capacity(s.ring)
    requires Alone(CallStep, t, Posted(s, t, Drop(ReadFull), Capacity(s.ring) - s.empty, 0), s')
    ensures Alone(CallStep, t, s, s')
  {
    var toPost := Capacity(s.ring) - s.empty;
    var mid := CallStep(s, t).value;
    var posted := Posted(mid, t, Drop(PostingEmpty(0)), toPost, 0);
    assert CallStep(posted, t).value == Posted(s, t, Drop(ReadFull), toPost, 0);
    AloneStep(CallStep, t, posted, CallStep(posted, t).value, s');
    EmptyLoopAlone(mid, t, toPost, s');
    AloneStep(CallStep, t, s, mid, s');
  }

  lemma {:induction false} SecondLoopAlone(s: State, t: nat, s': State)
    requires t < |s.pcs| && s.pcs[t] == Drop(ReadFull)
    requires Alone(CallStep, t, Posted(s, t, Drop(FinalFull(Capacity(s.ring))), 0, s.full), s')
    ensures Alone(CallStep, t, s, s')
  {
    var mid := CallStep(s, t).value;
    var posted := Posted(mid, t, Drop(PostingFull(0)), 0, s.full);
    assert CallStep(posted, t).value == Posted(s, t, Drop(FinalFull(Capacity(s.ring))), 0, s.full);
    AloneStep(CallStep, t, posted, CallStep(posted, t).value, s');
    FullLoopAlone(mid, t, s.full, s');
    AloneStep(CallStep, t, s, mid, s');
  }

  lemma {:induction false} LastLoopAlone(s: State, t: nat)
    requires t < |s.pcs| && s.pcs[t] == Drop(FinalFull(Capacity(s.ring)))
    ensures Alone(CallStep, t, s, Unlocked(s, t, Capacity(s.ring), Capacity(s.ring)))
  {
    var size := Capacity(s.ring);
    var end := Unlocked(s, t, size, size);
    var posted := Posted(s, t, Drop(FinalFull(0)), size, size);
    assert CallStep(posted, t) == Some(end);
    AloneStay(CallStep, t, end);
    AloneStep(CallStep, t, posted, end, end);
    FinalLoopAlone(s, t, size, end);
  }

  /** A drop that nobody interrupts posts its way, step by step, to twice the capacity in
      `empty` and the capacity plus twice what there was in `full`: what `QueueStruct.Queue.Drop`
      does in one go. */
  lemma {:induction false} DropAlone(s: State, t: nat)
    requires t < |s.pcs| && s.pcs[t] == Drop(DropBody) && !s.dropped && s.empty <= Capacity(s.ring)
    ensures var size := Capacity(s.ring);
            Alone(CallStep, t, s, Unlocked(s, t, 2 * size - s.empty, s.full + size).(dropped := true))
  {
    var size := Capacity(s.ring);
    var s1 := s.(pcs := s.pcs[t := Drop(ReadEmpty)], dropped := true);
    var s2 := Posted(s1, t, Drop(ReadFull), size - s.empty, 0);
    var s3 := Posted(s2, t, Drop(FinalFull(size)), 0, s.full);
    var end := Unlocked(s, t, 2 * size - s.empty, s.full + size).(dropped := true);
    assert s3.pcs == s.pcs[t := Drop(FinalFull(size))];
    assert Unlocked(s3, t, size, size) == end;
    LastLoopAlone(s3, t);
    SecondLoopAlone(s2, t, end);
    FirstLoopsAlone(s1, t, end);
    AloneStep(CallStep, t, s, s1, end);
  }
}
