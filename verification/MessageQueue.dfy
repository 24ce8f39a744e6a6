/** `msgqueue.c` under every interleaving of puts, gets and drops by any number of threads.

  A thread is between calls (`Idle`, with the value its last call returned) or at a step of
  one. A call past its critical section knows, for the proofs, the place of what it moved in
  the history (`entry`); no step looks at it. Everything between lock and unlock that only
  touches fields the mutex guards is one step; every semaphore operation is a step of its own,
  in `mymsqdrop` too.
 */
module MessageQueue {
  import opened Runs
  import opened Tally
  import opened Bytes
  import opened MessageRing

  /** The steps of `mymsgput` and `mymsgget`, which have the same shape. */
  datatype Stage =
    | Wait | Lock | Body | Unlock(ret: nat, entry: nat) | Post(ret: nat, entry: nat)
    | AbortUnlock | AbortPost

  /** The steps of `mymsqdrop`; `left` counts the posts or rounds a loop has still to make. */
  datatype DropStage =
    | DropLock | DropBody | DropReturn
    | ReadEmpty | PostingEmpty(left: nat)
    | ReadFull | PostingFull(left: nat)
    | FinalFull(left: nat) | FinalEmpty(left: nat)

  datatype Pc =
    | Idle(ret: nat)
    | Put(msg: seq<Byte>, at: Stage)
    | Get(bufsize: nat, at: Stage)
    | Drop(stage: DropStage)

  /** What a successful get delivered into a buffer of the given size, and how many messages
      had been enqueued by then. */
  datatype Delivery = Delivery(bufsize: nat, text: seq<Byte>, seen: nat)

  datatype Call = PutCall(msg: seq<Byte>) | GetCall(bufsize: nat) | DropCall

  /** A call that has returned to thread `t`, the place of what it moved, if it moved anything,
      in `puts` or `gets`, and how many calls had returned when it began. */
  datatype Return = Return(t: nat, call: Call, ret: nat, entry: Option<nat>, began: nat)

  /** The messages enqueued and the texts delivered, in the order of their critical sections,
      the calls that have returned, in the order in which they did, for each thread how many had
      when its last call began, and the posts the drop has made. */
  datatype History = History(
    puts: seq<seq<Byte>>, gets: seq<Delivery>, returned: seq<Return>, began: map<nat, nat>,
    postedEmpty: nat, postedFull: nat)

  datatype State = State(
    ring: Ring, full: nat, empty: nat, mutex: Option<nat>, dropped: bool, pcs: seq<Pc>, log: History)

  datatype Event =
    | CallPut(t: nat, msg: seq<Byte>)
    | CallGet(t: nat, bufsize: nat)
    | CallDrop(t: nat)
    | WaitFails(t: nat)  // sem_wait returns an error (a signal arrived)
    | Advance(t: nat)

  ghost predicate Init(s: State)
  {
    && s.ring.head == s.ring.tail == s.ring.count == 0
    && s.full == 0 && s.empty == Capacity(s.ring) && s.mutex == None && !s.dropped
    && (forall t :: 0 <= t < |s.pcs| ==> s.pcs[t] == Idle(0))
    && s.log == History([], [], [], map[], 0, 0)
  }

  function Goto(s: State, t: nat, pc: Pc): State
    requires t < |s.pcs|
  {
    s.(pcs := s.pcs[t := pc])
  }

  function CallOf(pc: Pc): Call
  {
    match pc
    case Put(msg, _) => PutCall(msg)
    case Get(bufsize, _) => GetCall(bufsize)
    case _ => DropCall
  }

  /** The call of thread `t` returns. */
  function Returned(s: State, t: nat, ret: nat, entry: Option<nat>): State
    requires t < |s.pcs|
  {
    var record := Return(t, CallOf(s.pcs[t]), ret, entry, Began(s.log, t));
    Goto(s, t, Idle(ret)).(log := s.log.(returned := s.log.returned + [record]))
  }

  /** How many calls had returned when the last call of thread `t` began. */
  function Began(log: History, t: nat): nat
  {
    if t in log.began then log.began[t] else 0
  }

  /** Thread `t` begins a call. */
  function Called(s: State, t: nat, pc: Pc): State
    requires t < |s.pcs|
  {
    Goto(s, t, pc).(log := s.log.(began := s.log.began[t := |s.log.returned|]))
  }

  function Step(s: State, e: Event): Option<State>
  {
    if e.t >= |s.pcs| then None
    else
      match e
      case CallPut(t, msg) => if s.pcs[t].Idle? then Some(Called(s, t, Put(msg, Wait))) else None
      case CallGet(t, bufsize) => if s.pcs[t].Idle? then Some(Called(s, t, Get(bufsize, Wait))) else None
      case CallDrop(t) => if s.pcs[t].Idle? then Some(Called(s, t, Drop(DropLock))) else None
      case WaitFails(t) => if Waiting(s.pcs[t]) then Some(Returned(s, t, 0, None)) else None
      case Advance(t) => CallStep(s, t)
  }

  predicate Waiting(pc: Pc)
  {
    (pc.Put? || pc.Get?) && pc.at == Wait
  }

  /** The next step of the call thread `t` is in. */
  function CallStep(s: State, t: nat): Option<State>
  {
    if t >= |s.pcs| then None
    else
      match s.pcs[t]
      case Idle(_) => None
      case Put(msg, at) => PutStep(s, t, msg, at)
      case Get(bufsize, at) => GetStep(s, t, bufsize, at)
      case Drop(stage) => DropStep(s, t, stage)
  }

  function Acquire(s: State, t: nat, pc: Pc): Option<State>
    requires t < |s.pcs|
  {
    if s.mutex.None? then Some(Goto(s, t, pc).(mutex := Some(t))) else None
  }

  function Release(s: State, t: nat, pc: Pc): Option<State>
    requires t < |s.pcs|
  {
    Some(Goto(s, t, pc).(mutex := None))
  }

  function PutStep(s: State, t: nat, msg: seq<Byte>, at: Stage): Option<State>
    requires t < |s.pcs|
  {
    match at
    case Wait => if s.empty > 0 then Some(Goto(s, t, Put(msg, Lock)).(empty := s.empty - 1)) else None
    case Lock => Acquire(s, t, Put(msg, Body))
    case Body =>
      if s.dropped then Some(Goto(s, t, Put(msg, AbortUnlock)))
      else
        Some(Goto(s, t, Put(msg, Unlock(|Kept(msg)|, |s.log.puts|)))
             .(ring := Enqueue(s.ring, msg), log := s.log.(puts := s.log.puts + [msg])))
    case Unlock(ret, entry) => Release(s, t, Put(msg, Post(ret, entry)))
    case Post(ret, entry) => Some(Returned(s, t, ret, Some(entry)).(full := s.full + 1))
    case AbortUnlock => Release(s, t, Put(msg, AbortPost))
    case AbortPost => Some(Returned(s, t, 0, None).(empty := s.empty + 1))
  }

  function GetStep(s: State, t: nat, bufsize: nat, at: Stage): Option<State>
    requires t < |s.pcs|
  {
    match at
    case Wait => if s.full > 0 then Some(Goto(s, t, Get(bufsize, Lock)).(full := s.full - 1)) else None
    case Lock => Acquire(s, t, Get(bufsize, Body))
    case Body =>
      if s.dropped then Some(Goto(s, t, Get(bufsize, AbortUnlock)))
      else
        var text := Front(s.ring, bufsize);
        Some(Goto(s, t, Get(bufsize, Unlock(|text|, |s.log.gets|)))
             .(ring := Dequeue(s.ring), log := s.log.(gets := s.log.gets + [Delivery(bufsize, text, |s.log.puts|)])))
    case Unlock(ret, entry) => Release(s, t, Get(bufsize, Post(ret, entry)))
    case Post(ret, entry) => Some(Returned(s, t, ret, Some(entry)).(empty := s.empty + 1))
    case AbortUnlock => Release(s, t, Get(bufsize, AbortPost))
    case AbortPost => Some(Returned(s, t, 0, None).(full := s.full + 1))
  }

  function DropStep(s: State, t: nat, stage: DropStage): Option<State>
    requires t < |s.pcs|
  {
    var size := Capacity(s.ring);
    match stage
    case DropLock => Acquire(s, t, Drop(DropBody))
    case DropBody =>
      if s.dropped then Some(Goto(s, t, Drop(DropReturn)))
      else Some(Goto(s, t, Drop(ReadEmpty)).(dropped := true))
    case DropReturn => Some(Returned(s, t, 0, None).(mutex := None))
    case ReadEmpty => Some(Goto(s, t, Drop(PostingEmpty(if s.empty < size then size - s.empty else 0))))
    case PostingEmpty(left) =>
      if left == 0 then Some(Goto(s, t, Drop(ReadFull)))
      else Some(PostEmpty(Goto(s, t, Drop(PostingEmpty(left - 1)))))
    case ReadFull => Some(Goto(s, t, Drop(PostingFull(s.full))))
    case PostingFull(left) =>
      if left == 0 then Some(Goto(s, t, Drop(FinalFull(size))))
      else Some(PostFull(Goto(s, t, Drop(PostingFull(left - 1)))))
    case FinalFull(left) =>
      if left == 0 then Some(Returned(s, t, 0, None).(mutex := None))
      else Some(PostFull(Goto(s, t, Drop(FinalEmpty(left - 1)))))
    case FinalEmpty(left) => Some(PostEmpty(Goto(s, t, Drop(FinalFull(left)))))
  }

  function PostEmpty(s: State): State { s.(empty := s.empty + 1, log := s.log.(postedEmpty := s.log.postedEmpty + 1)) }

  function PostFull(s: State): State { s.(full := s.full + 1, log := s.log.(postedFull := s.log.postedFull + 1)) }

  // ---------------------------------------------------------------- invariants

  predicate HoldsMutex(pc: Pc)
  {
    match pc
    case Idle(_) => false
    case Put(_, at) => at.Body? || at.Unlock? || at.AbortUnlock?
    case Get(_, at) => at.Body? || at.Unlock? || at.AbortUnlock?
    case Drop(stage) => stage != DropLock
  }

  /** A drop that found the queue not dropped and is releasing the blocked callers. */
  predicate Dropping(pc: Pc)
  {
    pc.Drop? && !pc.stage.DropLock? && !pc.stage.DropBody? && !pc.stage.DropReturn?
  }

  /** The loops of a drop. */
  predicate Posting(stage: DropStage)
  {
    stage.PostingEmpty? || stage.PostingFull? || stage.FinalFull? || stage.FinalEmpty?
  }

  predicate BeforeBody(at: Stage) { at.Lock? || at.Body? || at.AbortUnlock? || at.AbortPost? }

  predicate AfterBody(at: Stage) { at.Unlock? || at.Post? }

  /** Permits of `empty` in the hands of a call: a put that has passed its wait and has
      neither enqueued nor given the permit back, or a get that has dequeued and not posted. */
  function EmptyHeld(pc: Pc): int
  {
    if (pc.Put? && BeforeBody(pc.at)) || (pc.Get? && AfterBody(pc.at)) then 1 else 0
  }

  /** Permits of `full` in the hands of a call. */
  function FullHeld(pc: Pc): int
  {
    if (pc.Get? && BeforeBody(pc.at)) || (pc.Put? && AfterBody(pc.at)) then 1 else 0
  }

  ghost predicate LockInv(s: State)
  {
    && (s.mutex.Some? ==> s.mutex.value < |s.pcs|)
    && forall t :: 0 <= t < |s.pcs| ==> (HoldsMutex(s.pcs[t]) <==> s.mutex == Some(t))
  }

  /** The accounts of the two semaphores, before, during and after a drop. */
  ghost predicate PermitInv(s: State)
  {
    && s.empty + Sum(EmptyHeld, s.pcs) == Capacity(s.ring) - s.ring.count + s.log.postedEmpty
    && s.full + Sum(FullHeld, s.pcs) == s.ring.count + s.log.postedFull
  }

  function Holder(s: State): Pc
  {
    if s.mutex.Some? && s.mutex.value < |s.pcs| then s.pcs[s.mutex.value] else Idle(0)
  }

  /** How far the posts of the drop have come. */
  ghost predicate DropInv(s: State)
  {
    var size := Capacity(s.ring);
    if !s.dropped then s.log.postedEmpty == s.log.postedFull == 0 && !Dropping(Holder(s))
    else if !Dropping(Holder(s)) then s.log.postedEmpty >= size && s.log.postedFull >= size
    else
      match Holder(s).stage
      case ReadEmpty => s.log.postedEmpty == s.log.postedFull == 0
      case PostingEmpty(left) => s.log.postedFull == 0 && left <= size
      case ReadFull => s.log.postedFull == 0
      case PostingFull(left) => left <= size
      case FinalFull(left) => left <= size && s.log.postedEmpty >= size - left && s.log.postedFull >= size - left
      case FinalEmpty(left) => left < size && s.log.postedEmpty >= size - left - 1 && s.log.postedFull >= size - left
      case _ => true
  }

  /** The ring holds the puts not yet delivered, and each delivery is the put of its number. */
  ghost predicate FifoInv(s: State)
  {
    && |s.log.gets| <= |s.log.puts|
    && Holds(s.ring, s.log.puts[|s.log.gets|..])
    && forall k :: 0 <= k < |s.log.gets| ==> Delivers(s.log.gets[k], s.log.puts[k])
  }

  ghost predicate Delivers(d: Delivery, msg: seq<Byte>)
  {
    d.text == Kept(msg)[..CopyLen(|Kept(msg)|, d.bufsize)]
  }

  ghost predicate Inv(s: State)
  {
    LockInv(s) && PermitInv(s) && DropInv(s) && FifoInv(s)
  }

  lemma InitInv(s: State)
    requires Init(s)
    ensures Inv(s)
  {
    SumZero(EmptyHeld, s.pcs);
    SumZero(FullHeld, s.pcs);
  }

  /** A thread with a permit is counted, so the semaphore accounts bound `count`: a put in
      its critical section has room, a get in its critical section has a message. */
  lemma CriticalSectionsAreSafe(s: State, t: nat)
    requires LockInv(s) && PermitInv(s) && DropInv(s) && !s.dropped && t < |s.pcs|
    ensures s.pcs[t].Put? && s.pcs[t].at == Body ==> s.ring.count < Capacity(s.ring)
    ensures s.pcs[t].Get? && s.pcs[t].at == Body ==> s.ring.count > 0
  {
    SumBound(EmptyHeld, s.pcs, t);
    SumBound(FullHeld, s.pcs, t);
  }

  /** One step seen from the thread that takes it: no other thread moves, the mutex is taken
      only when free and given back only by its holder, permits are neither made nor lost
      except by a drop, and only a critical section that sees no drop touches the ring. */
  ghost predicate Local(s: State, t: nat, s': State)
  {
    && t < |s.pcs| == |s'.pcs| && s'.pcs == s.pcs[t := s'.pcs[t]]
    && Capacity(s'.ring) == Capacity(s.ring)
    && MutexMoves(s, s.pcs[t], s', s'.pcs[t], t)
    && PermitsMove(s, s.pcs[t], s', s'.pcs[t])
    && ((s'.ring == s.ring && s'.log.puts == s.log.puts && s'.log.gets == s.log.gets)
        || (!s.dropped && (s.pcs[t].Put? || s.pcs[t].Get?) && s.pcs[t].at == Body))
    && (s'.dropped == s.dropped || s.pcs[t] == Drop(DropBody))
    && (Dropping(s.pcs[t]) || (s'.log.postedEmpty == s.log.postedEmpty && s'.log.postedFull == s.log.postedFull))
  }

  ghost predicate MutexMoves(s: State, pc: Pc, s': State, pc': Pc, t: nat)
  {
    || (s'.mutex == s.mutex && HoldsMutex(pc') == HoldsMutex(pc))
    || (s.mutex == None && s'.mutex == Some(t) && HoldsMutex(pc'))
    || (s'.mutex == None && HoldsMutex(pc) && !HoldsMutex(pc'))
  }

  ghost predicate PermitsMove(s: State, pc: Pc, s': State, pc': Pc)
  {
    && s'.empty + EmptyHeld(pc') + s'.ring.count - s'.log.postedEmpty
       == s.empty + EmptyHeld(pc) + s.ring.count - s.log.postedEmpty
    && s'.full + FullHeld(pc') - s'.ring.count - s'.log.postedFull
       == s.full + FullHeld(pc) - s.ring.count - s.log.postedFull
  }

  lemma BodyIsLocal(s: State, t: nat)
    requires t < |s.pcs| && (s.pcs[t].Put? || s.pcs[t].Get?) && s.pcs[t].at == Body
    ensures Local(s, t, CallStep(s, t).value)
  {
  }

  lemma PutIsLocal(s: State, t: nat)
    requires t < |s.pcs| && s.pcs[t].Put? && s.pcs[t].at != Body && CallStep(s, t).Some?
    ensures Local(s, t, CallStep(s, t).value)
  {
  }

  lemma GetIsLocal(s: State, t: nat)
    requires t < |s.pcs| && s.pcs[t].Get? && s.pcs[t].at != Body && CallStep(s, t).Some?
    ensures Local(s, t, CallStep(s, t).value)
  {
  }

  lemma FirstPostsAreLocal(s: State, t: nat)
    requires t < |s.pcs| && s.pcs[t].Drop? && (s.pcs[t].stage.PostingEmpty? || s.pcs[t].stage.PostingFull?)
    ensures CallStep(s, t).Some? && Local(s, t, CallStep(s, t).value)
  {
  }

  lemma FinalPostsAreLocal(s: State, t: nat)
    requires t < |s.pcs| && s.pcs[t].Drop? && (s.pcs[t].stage.FinalFull? || s.pcs[t].stage.FinalEmpty?)
    ensures CallStep(s, t).Some? && Local(s, t, CallStep(s, t).value)
  {
  }

  lemma DropIsLocal(s: State, t: nat)
    requires t < |s.pcs| && s.pcs[t].Drop? && !Posting(s.pcs[t].stage) && CallStep(s, t).Some?
    ensures Local(s, t, CallStep(s, t).value)
  {
  }

  lemma StepIsLocal(s: State, e: Event)
    requires Step(s, e).Some?
    ensures Local(s, e.t, Step(s, e).value)
  {
    if e.Advance? {
      match s.pcs[e.t]
      case Put(_, Body) | Get(_, Body) => BodyIsLocal(s, e.t);
      case Put(_, _) => PutIsLocal(s, e.t);
      case Get(_, _) => GetIsLocal(s, e.t);
      case Drop(stage) =>
        if stage.PostingEmpty? || stage.PostingFull? {
          FirstPostsAreLocal(s, e.t);
        } else if stage.FinalFull? || stage.FinalEmpty? {
          FinalPostsAreLocal(s, e.t);
        } else {
          DropIsLocal(s, e.t);
        }
    }
  }

  lemma StepLockInv(s: State, e: Event)
    requires LockInv(s) && Step(s, e).Some?
    ensures LockInv(Step(s, e).value)
  {
    StepIsLocal(s, e);
  }

  lemma StepPermitInv(s: State, e: Event)
    requires PermitInv(s) && Step(s, e).Some?
    ensures PermitInv(Step(s, e).value)
  {
    StepIsLocal(s, e);
    var s' := Step(s, e).value;
    SumUpdate(EmptyHeld, s.pcs, e.t, s'.pcs[e.t]);
    SumUpdate(FullHeld, s.pcs, e.t, s'.pcs[e.t]);
  }

  lemma PostKeepsDropInv(s: State, t: nat)
    requires LockInv(s) && DropInv(s) && t < |s.pcs| && s.pcs[t].Drop? && Posting(s.pcs[t].stage)
    ensures CallStep(s, t).Some? && DropInv(CallStep(s, t).value)
  {
    assert HoldsMutex(s.pcs[t]) && s.mutex == Some(t);
  }

  lemma DropKeepsDropInv(s: State, t: nat)
    requires LockInv(s) && PermitInv(s) && DropInv(s) && s.ring.count <= Capacity(s.ring)
    requires t < |s.pcs| && s.pcs[t].Drop? && !Posting(s.pcs[t].stage) && CallStep(s, t).Some?
    ensures DropInv(CallStep(s, t).value)
  {
    SumNonNegative(FullHeld, s.pcs);
  }

  lemma StepDropInv(s: State, e: Event)
    requires Inv(s) && Step(s, e).Some?
    ensures DropInv(Step(s, e).value)
  {
    StepIsLocal(s, e);
    if e.Advance? && s.pcs[e.t].Drop? {
      if Posting(s.pcs[e.t].stage) {
        PostKeepsDropInv(s, e.t);
      } else {
        DropKeepsDropInv(s, e.t);
      }
    } else {
      StepLockInv(s, e);
    }
  }

  lemma PutKeepsFifo(s: State, t: nat)
    requires Inv(s) && !s.dropped && t < |s.pcs| && s.pcs[t].Put? && s.pcs[t].at == Body
    ensures FifoInv(CallStep(s, t).value)
  {
    var q, msg := s.log.puts[|s.log.gets|..], s.pcs[t].msg;
    CriticalSectionsAreSafe(s, t);
    EnqueueAppends(s.ring, q, msg);
    assert (s.log.puts + [msg])[|s.log.gets|..] == q + [msg];
  }

  lemma GetKeepsFifo(s: State, t: nat)
    requires Inv(s) && !s.dropped && t < |s.pcs| && s.pcs[t].Get? && s.pcs[t].at == Body
    ensures FifoInv(CallStep(s, t).value)
  {
    var q := s.log.puts[|s.log.gets|..];
    CriticalSectionsAreSafe(s, t);
    DequeueDropsFirst(s.ring, q, s.pcs[t].bufsize);
    assert s.log.puts[|s.log.gets| + 1..] == q[1..];
  }

  lemma StepFifoInv(s: State, e: Event)
    requires Inv(s) && Step(s, e).Some?
    ensures FifoInv(Step(s, e).value)
  {
    StepIsLocal(s, e);
    if e.Advance? && !s.dropped && s.pcs[e.t].Put? && s.pcs[e.t].at == Body {
      PutKeepsFifo(s, e.t);
    } else if e.Advance? && !s.dropped && s.pcs[e.t].Get? && s.pcs[e.t].at == Body {
      GetKeepsFifo(s, e.t);
    }
  }

  lemma StepInv(s: State, e: Event)
    requires Inv(s) && Step(s, e).Some?
    ensures Inv(Step(s, e).value)
  {
    StepLockInv(s, e);
    StepPermitInv(s, e);
    StepDropInv(s, e);
    StepFifoInv(s, e);
  }

  lemma {:induction false} Reachable(s: State, schedule: seq<Event>)
    requires Init(s) && Exec(Step, s, schedule).Some?
    ensures Inv(Exec(Step, s, schedule).value)
  {
    InitInv(s);
    forall x, e | Inv(x) && Step(x, e).Some?
      ensures Inv(Step(x, e).value)
    {
      StepInv(x, e);
    }
    Invariant(Step, Inv, s, schedule);
  }

  /** Permits are conserved, the count says where the messages are, and the two semaphores
      are never both at 0 unless some call in flight holds a permit. */
  lemma PermitsBeforeDrop(s: State)
    requires Inv(s) && !s.dropped
    ensures s.empty + s.full + Sum(EmptyHeld, s.pcs) + Sum(FullHeld, s.pcs) == Capacity(s.ring)
    ensures s.ring.count == s.full + Sum(FullHeld, s.pcs)
    ensures 0 <= s.ring.count <= Capacity(s.ring)
    ensures s.empty == 0 && s.full == 0 ==>
              exists t :: 0 <= t < |s.pcs| && EmptyHeld(s.pcs[t]) + FullHeld(s.pcs[t]) > 0
  {
    SumNonNegative(EmptyHeld, s.pcs);
    SumNonNegative(FullHeld, s.pcs);
    if forall t :: 0 <= t < |s.pcs| ==> EmptyHeld(s.pcs[t]) == 0 && FullHeld(s.pcs[t]) == 0 {
      SumZero(EmptyHeld, s.pcs);
      SumZero(FullHeld, s.pcs);
    }
  }
}
