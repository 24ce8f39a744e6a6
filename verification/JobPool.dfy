/** `proxy2.c`: an acceptor hands client descriptors to a pool of workers, who close them.

  Which numbers `accept` returns is up to the system, which may reuse a number once it has
  been closed; `open` is the set of client descriptors open at the moment. `shutdown` is set
  as the code sets it, without the queue mutex, so it can come between a worker's check and
  its sleep.
 */
module JobPool {
  import opened Runs
  import opened Tally

  datatype AcceptorStage =
    | Ready
    | Allocate(fd: int)  // at malloc in thread_pool_add_job
    | Lock(fd: int) | Append(fd: int) | Signal | Unlock
    | Broadcast | Finished

  datatype WorkerStage =
    | WaitForMutex  // at pthread_mutex_lock, or woken and taking the mutex again
    | Check
    | CondWait  // has seen no job and no shutdown, at pthread_cond_wait
    | Asleep
    | WorkerUnlock(fd: int) | Serve(fd: int) | Close(fd: int)
    | ExitUnlock | Exited

  datatype Pc = Acceptor(at: AcceptorStage) | Worker(stage: WorkerStage)

  /** `accepted` lists the descriptors that clients came with, `added` and `taken` those put into
      the queue and taken off it, `served` those closed by a worker and `refused` those closed
      for want of memory, in the order in which it happened. */
  datatype History = History(
    accepted: seq<int>, added: seq<int>, taken: seq<int>, served: seq<int>, refused: seq<int>)

  datatype State = State(
    queue: seq<int>, shutdown: bool, mutex: Option<nat>, pcs: seq<Pc>, open: set<int>, log: History)

  datatype Event =
    | Accept(t: nat, fd: int)
    | OutOfMemory(t: nat)
    | ShutDown(t: nat)
    | SpuriousWakeup(t: nat)
    | Go(t: nat, woken: nat)

  ghost predicate Init(s: State)
  {
    && s.queue == [] && !s.shutdown && s.mutex == None && s.open == {}
    && s.log == History([], [], [], [], [])
    && (exists t :: 0 <= t < |s.pcs| && s.pcs[t].Worker?)
    && forall t :: 0 <= t < |s.pcs| ==> s.pcs[t] == Acceptor(Ready) || s.pcs[t] == Worker(WaitForMutex)
  }

  function Goto(s: State, t: nat, pc: Pc): State
    requires t < |s.pcs|
  {
    s.(pcs := s.pcs[t := pc])
  }

  predicate IsAsleep(s: State, t: nat)
  {
    t < |s.pcs| && s.pcs[t] == Worker(Asleep)
  }

  predicate SomeoneAsleep(s: State)
  {
    exists t :: 0 <= t < |s.pcs| && IsAsleep(s, t)
  }

  function Step(s: State, e: Event): Option<State>
  {
    if e.t >= |s.pcs| then None
    else
      match e
      case Accept(t, fd) =>
        if s.pcs[t] == Acceptor(Ready) && fd !in s.open
        then Some(Goto(s, t, Acceptor(Allocate(fd)))
                  .(open := s.open + {fd}, log := s.log.(accepted := s.log.accepted + [fd])))
        else None
      case OutOfMemory(t) =>
        if s.pcs[t].Acceptor? && s.pcs[t].at.Allocate?
        then
          var fd := s.pcs[t].at.fd;
          Some(Goto(s, t, Acceptor(Ready)).(open := s.open - {fd}, log := s.log.(refused := s.log.refused + [fd])))
        else None
      case ShutDown(t) =>
        if s.pcs[t] == Acceptor(Ready) then Some(Goto(s, t, Acceptor(Broadcast)).(shutdown := true)) else None
      case SpuriousWakeup(t) => if IsAsleep(s, t) then Some(Goto(s, t, Worker(WaitForMutex))) else None
      case Go(t, woken) =>
        match s.pcs[t]
        case Acceptor(at) =>
          if at == Signal then SignalOne(s, t, woken)
          else if at == Broadcast then Some(s.(pcs := WakeAll(s.pcs)[t := Acceptor(Finished)]))
          else AcceptorNext(s, t, at)
        case Worker(stage) => WorkerNext(s, t, stage)
  }

  function AcceptorNext(s: State, t: nat, at: AcceptorStage): Option<State>
    requires t < |s.pcs|
  {
    match at
    case Allocate(fd) => Some(Goto(s, t, Acceptor(Lock(fd))))
    case Lock(fd) => if s.mutex.None? then Some(Goto(s, t, Acceptor(Append(fd))).(mutex := Some(t))) else None
    case Append(fd) =>
      Some(Goto(s, t, Acceptor(Signal)).(queue := s.queue + [fd], log := s.log.(added := s.log.added + [fd])))
    case Unlock => Some(Goto(s, t, Acceptor(Ready)).(mutex := None))
    case _ => None
  }

  function SignalOne(s: State, t: nat, woken: nat): Option<State>
    requires t < |s.pcs|
  {
    if IsAsleep(s, woken) then Some(Goto(Goto(s, t, Acceptor(Unlock)), woken, Worker(WaitForMutex)))
    else if SomeoneAsleep(s) then None
    else Some(Goto(s, t, Acceptor(Unlock)))
  }

  function WakeAll(pcs: seq<Pc>): (woken: seq<Pc>)
    ensures |woken| == |pcs|
    ensures forall i :: 0 <= i < |pcs| ==> woken[i] == if pcs[i] == Worker(Asleep) then Worker(WaitForMutex) else pcs[i]
  {
    seq(|pcs|, i requires 0 <= i < |pcs| => if pcs[i] == Worker(Asleep) then Worker(WaitForMutex) else pcs[i])
  }

  function WorkerNext(s: State, t: nat, stage: WorkerStage): Option<State>
    requires t < |s.pcs|
  {
    match stage
    case WaitForMutex => if s.mutex.None? then Some(Goto(s, t, Worker(Check)).(mutex := Some(t))) else None
    case Check =>
      if s.shutdown then Some(Goto(s, t, Worker(ExitUnlock)))
      else if s.queue == [] then Some(Goto(s, t, Worker(CondWait)))
      else
        Some(Goto(s, t, Worker(WorkerUnlock(s.queue[0])))
             .(queue := s.queue[1..], log := s.log.(taken := s.log.taken + [s.queue[0]])))
    case CondWait => Some(Goto(s, t, Worker(Asleep)).(mutex := None))
    case Asleep => None
    case WorkerUnlock(fd) => Some(Goto(s, t, Worker(Serve(fd))).(mutex := None))
    case Serve(fd) => Some(Goto(s, t, Worker(Close(fd))))
    case Close(fd) =>
      Some(Goto(s, t, Worker(WaitForMutex)).(open := s.open - {fd}, log := s.log.(served := s.log.served + [fd])))
    case ExitUnlock => Some(Goto(s, t, Worker(Exited)).(mutex := None))
    case Exited => None
  }

  /** A client, with any descriptor that is not open, can come whenever the acceptor is at
      `accept`, and memory can run out whenever it allocates a job. */
  lemma AnyClientMayCome(s: State, t: nat, fd: int)
    requires t < |s.pcs|
    ensures Step(s, Accept(t, fd)).Some? <==> s.pcs[t] == Acceptor(Ready) && fd !in s.open
    ensures Step(s, OutOfMemory(t)).Some? <==> s.pcs[t].Acceptor? && s.pcs[t].at.Allocate?
    ensures Step(s, ShutDown(t)).Some? <==> s.pcs[t] == Acceptor(Ready)
  {
  }

  /** A spurious wakeup can come to whoever sleeps, and to nobody else; it leads to the mutex. */
  lemma AnySleeperMayWake(s: State, t: nat)
    requires t < |s.pcs|
    ensures Step(s, SpuriousWakeup(t)).Some? <==> IsAsleep(s, t)
    ensures IsAsleep(s, t) ==> Step(s, SpuriousWakeup(t)).value == s.(pcs := s.pcs[t := Worker(WaitForMutex)])
  {
  }

  // ---------------------------------------------------------------- invariants

  predicate HoldsMutex(pc: Pc)
  {
    match pc
    case Acceptor(at) => at.Append? || at.Signal? || at.Unlock?
    case Worker(stage) => stage.Check? || stage.CondWait? || stage.WorkerUnlock? || stage.ExitUnlock?
  }

  /** The descriptor in a thread's own hands. */
  function Carries(pc: Pc): Option<int>
  {
    match pc
    case Acceptor(Allocate(fd)) => Some(fd)
    case Acceptor(Lock(fd)) => Some(fd)
    case Acceptor(Append(fd)) => Some(fd)
    case Worker(WorkerUnlock(fd)) => Some(fd)
    case Worker(Serve(fd)) => Some(fd)
    case Worker(Close(fd)) => Some(fd)
    case _ => None
  }

  function InHand(fd: int): Pc -> int
  {
    (pc: Pc) => if Carries(pc) == Some(fd) then 1 else 0
  }

  /** In how many places a descriptor is: queued, or in the hands of a thread. */
  function Places(fd: int, s: State): int
  {
    Copies(fd, s.queue) + Sum(InHand(fd), s.pcs)
  }

  /** An open descriptor is in exactly one place, a closed one in none. */
  ghost predicate Owned(fd: int, s: State)
  {
    Places(fd, s) == if fd in s.open then 1 else 0
  }

  ghost predicate LockInv(s: State)
  {
    && (s.mutex.Some? ==> s.mutex.value < |s.pcs|)
    && (forall t :: 0 <= t < |s.pcs| ==> (HoldsMutex(s.pcs[t]) <==> s.mutex == Some(t)))
    && (exists t :: 0 <= t < |s.pcs| && s.pcs[t].Worker?)
    && (!s.shutdown ==> forall t :: 0 <= t < |s.pcs| ==> !Leaving(s.pcs[t]))
  }

  predicate Leaving(pc: Pc)
  {
    pc == Worker(ExitUnlock) || pc == Worker(Exited) || pc == Acceptor(Broadcast) || pc == Acceptor(Finished)
  }

  ghost predicate AllAsleep(s: State)
  {
    forall t :: 0 <= t < |s.pcs| && s.pcs[t].Worker? ==> s.pcs[t].stage == Asleep
  }

  ghost predicate SignalDue(s: State)
  {
    s.mutex.Some? && s.mutex.value < |s.pcs| && s.pcs[s.mutex.value] == Acceptor(Signal)
  }

  /** Whoever is about to sleep has the mutex, so nothing has been added since it looked. */
  ghost predicate WakeupInv(s: State)
  {
    && (AllAsleep(s) && !SignalDue(s) ==> s.queue == [])
    && forall t :: 0 <= t < |s.pcs| && s.pcs[t] == Worker(CondWait) ==> s.queue == []
  }

  ghost predicate Inv(s: State)
  {
    LockInv(s) && WakeupInv(s)
  }

  // ---------------------------------------------------------------- ownership

  /** A step in which one thread moves, seen by one descriptor: it changes hands, goes to the
      back of the queue or comes off its front, is opened while nobody has it, or is closed
      by the thread that has it. */
  ghost predicate Moves(fd: int, s: State, t: nat, s': State)
  {
    && t < |s.pcs| == |s'.pcs| && s'.pcs == s.pcs[t := s'.pcs[t]]
    && Copies(fd, s'.queue) + InHand(fd)(s'.pcs[t]) - (if fd in s'.open then 1 else 0)
       == Copies(fd, s.queue) + InHand(fd)(s.pcs[t]) - (if fd in s.open then 1 else 0)
  }

  lemma MovesKeepOwned(fd: int, s: State, t: nat, s': State)
    requires Owned(fd, s) && Moves(fd, s, t, s')
    ensures Owned(fd, s')
  {
    SumUpdate(InHand(fd), s.pcs, t, s'.pcs[t]);
  }

  /** Whoever carries a descriptor carries an open one. */
  lemma CarriedIsOpen(s: State, t: nat)
    requires t < |s.pcs| && Carries(s.pcs[t]).Some? && Owned(Carries(s.pcs[t]).value, s)
    ensures Carries(s.pcs[t]).value in s.open
  {
    var fd := Carries(s.pcs[t]).value;
    SumBound(InHand(fd), s.pcs, t);
    SumNonNegative(Is(fd), s.queue);
  }

  lemma AcceptorMoves(fd: int, s: State, t: nat)
    requires t < |s.pcs| && s.pcs[t].Acceptor? && AcceptorNext(s, t, s.pcs[t].at).Some?
    ensures Moves(fd, s, t, AcceptorNext(s, t, s.pcs[t].at).value)
  {
    if s.pcs[t].at.Append? {
      SumAppend(Is(fd), s.queue, s.pcs[t].at.fd);
    }
  }

  lemma WorkerMoves(fd: int, s: State, t: nat)
    requires Owned(fd, s)
    requires t < |s.pcs| && s.pcs[t].Worker? && WorkerNext(s, t, s.pcs[t].stage).Some?
    ensures Moves(fd, s, t, WorkerNext(s, t, s.pcs[t].stage).value)
  {
    if Carries(s.pcs[t]) == Some(fd) {
      CarriedIsOpen(s, t);
    }
  }

  /** Waking changes no count that sees no difference between asleep and awake. */
  lemma {:induction false} WakingCounts(w: Pc -> int, pcs: seq<Pc>)
    requires w(Worker(Asleep)) == w(Worker(WaitForMutex))
    ensures Sum(w, WakeAll(pcs)) == Sum(w, pcs)
  {
    if pcs != [] {
      assert WakeAll(pcs)[1..] == WakeAll(pcs[1..]);
      WakingCounts(w, pcs[1..]);
    }
  }

  lemma GoKeepsOwned(fd: int, s: State, t: nat, woken: nat)
    requires Owned(fd, s) && Step(s, Go(t, woken)).Some?
    ensures Owned(fd, Step(s, Go(t, woken)).value)
  {
    var s' := Step(s, Go(t, woken)).value;
    if s.pcs[t].Worker? {
      WorkerMoves(fd, s, t);
      MovesKeepOwned(fd, s, t, s');
    } else if s.pcs[t].at == Signal {
      var mid := Goto(s, t, Acceptor(Unlock));
      MovesKeepOwned(fd, s, t, mid);
      if IsAsleep(s, woken) {
        MovesKeepOwned(fd, mid, woken, s');
      }
    } else if s.pcs[t].at == Broadcast {
      WakingCounts(InHand(fd), s.pcs);
      SumUpdate(InHand(fd), WakeAll(s.pcs), t, Acceptor(Finished));
    } else {
      AcceptorMoves(fd, s, t);
      MovesKeepOwned(fd, s, t, s');
    }
  }

  lemma StepKeepsOwned(fd: int, s: State, e: Event)
    requires Owned(fd, s) && Step(s, e).Some?
    ensures Owned(fd, Step(s, e).value)
  {
    var s' := Step(s, e).value;
    match e
    case Accept(t, newFd) => MovesKeepOwned(fd, s, t, s');
    case OutOfMemory(t) =>
      if Carries(s.pcs[t]) == Some(fd) {
        CarriedIsOpen(s, t);
      }
      MovesKeepOwned(fd, s, t, s');
    case ShutDown(t) => MovesKeepOwned(fd, s, t, s');
    case SpuriousWakeup(t) => MovesKeepOwned(fd, s, t, s');
    case Go(t, woken) => GoKeepsOwned(fd, s, t, woken);
  }

  /** In every run, shutdown included, a descriptor that has been accepted and not closed is in
      exactly one place, and every close is of an open descriptor: none is closed twice. */
  lemma {:induction false} DescriptorsHaveOneOwner(s: State, schedule: seq<Event>, fd: int)
    requires Init(s) && Exec(Step, s, schedule).Some?
    ensures var end := Exec(Step, s, schedule).value;
            && Places(fd, end) == (if fd in end.open then 1 else 0)
            && forall t :: 0 <= t < |end.pcs| && Carries(end.pcs[t]) == Some(fd) ==> fd in end.open
  {
    SumZero(InHand(fd), s.pcs);
    var inv := (x: State) => Owned(fd, x);
    forall x, e | inv(x) && Step(x, e).Some?
      ensures inv(Step(x, e).value)
    {
      StepKeepsOwned(fd, x, e);
    }
    Invariant(Step, inv, s, schedule);
    var end := Exec(Step, s, schedule).value;
    forall t | 0 <= t < |end.pcs| && Carries(end.pcs[t]) == Some(fd)
      ensures fd in end.open
    {
      CarriedIsOpen(end, t);
    }
  }

  // ---------------------------------------------------------------- jobs, in order

  function WithAcceptor(fd: int): Pc -> int
  {
    (pc: Pc) => if pc.Acceptor? && Carries(pc) == Some(fd) then 1 else 0
  }

  function WithWorker(fd: int): Pc -> int
  {
    (pc: Pc) => if pc.Worker? && Carries(pc) == Some(fd) then 1 else 0
  }

  /** Jobs leave the queue in the order in which they came. Each time a descriptor was accepted
      it was added to the queue or refused or is on its way there, and each time it was taken it
      was served or is in one worker's hands. */
  ghost predicate Books(fd: int, s: State)
  {
    && s.log.added == s.log.taken + s.queue
    && Copies(fd, s.log.accepted)
       == Copies(fd, s.log.added) + Copies(fd, s.log.refused) + Sum(WithAcceptor(fd), s.pcs)
    && Copies(fd, s.log.taken) == Copies(fd, s.log.served) + Sum(WithWorker(fd), s.pcs)
  }

  ghost predicate BooksMove(fd: int, s: State, pc: Pc, s': State, pc': Pc)
  {
    && (s.log.added == s.log.taken + s.queue ==> s'.log.added == s'.log.taken + s'.queue)
    && Copies(fd, s'.log.accepted) - Copies(fd, s'.log.added) - Copies(fd, s'.log.refused) - WithAcceptor(fd)(pc')
       == Copies(fd, s.log.accepted) - Copies(fd, s.log.added) - Copies(fd, s.log.refused) - WithAcceptor(fd)(pc)
    && Copies(fd, s'.log.taken) - Copies(fd, s'.log.served) - WithWorker(fd)(pc')
       == Copies(fd, s.log.taken) - Copies(fd, s.log.served) - WithWorker(fd)(pc)
  }

  lemma MoveKeepsBooks(fd: int, s: State, t: nat, s': State)
    requires Books(fd, s) && t < |s.pcs| == |s'.pcs| && s'.pcs == s.pcs[t := s'.pcs[t]]
    requires BooksMove(fd, s, s.pcs[t], s', s'.pcs[t])
    ensures Books(fd, s')
  {
    SumUpdate(WithAcceptor(fd), s.pcs, t, s'.pcs[t]);
    SumUpdate(WithWorker(fd), s.pcs, t, s'.pcs[t]);
  }

  lemma AcceptorBooks(fd: int, s: State, t: nat)
    requires t < |s.pcs| && s.pcs[t].Acceptor? && AcceptorNext(s, t, s.pcs[t].at).Some?
    ensures var s' := AcceptorNext(s, t, s.pcs[t].at).value;
            && t < |s.pcs| == |s'.pcs| && s'.pcs == s.pcs[t := s'.pcs[t]]
            && BooksMove(fd, s, s.pcs[t], s', s'.pcs[t])
  {
    if s.pcs[t].at.Append? {
      SumAppend(Is(fd), s.log.added, s.pcs[t].at.fd);
      assert s.log.taken + (s.queue + [s.pcs[t].at.fd]) == (s.log.taken + s.queue) + [s.pcs[t].at.fd];
    }
  }

  lemma CheckBooks(fd: int, s: State, t: nat)
    requires t < |s.pcs| && s.pcs[t] == Worker(Check)
    ensures var s' := WorkerNext(s, t, Check).value;
            && t < |s.pcs| == |s'.pcs| && s'.pcs == s.pcs[t := s'.pcs[t]]
            && BooksMove(fd, s, s.pcs[t], s', s'.pcs[t])
  {
    if s.queue != [] {
      SumAppend(Is(fd), s.log.taken, s.queue[0]);
      assert (s.log.taken + [s.queue[0]]) + s.queue[1..] == s.log.taken + s.queue;
    }
  }

  lemma WorkerBooks(fd: int, s: State, t: nat)
    requires t < |s.pcs| && s.pcs[t].Worker? && !s.pcs[t].stage.Check? && WorkerNext(s, t, s.pcs[t].stage).Some?
    ensures var s' := WorkerNext(s, t, s.pcs[t].stage).value;
            && t < |s.pcs| == |s'.pcs| && s'.pcs == s.pcs[t := s'.pcs[t]]
            && BooksMove(fd, s, s.pcs[t], s', s'.pcs[t])
  {
    if s.pcs[t].stage.Close? {
      SumAppend(Is(fd), s.log.served, s.pcs[t].stage.fd);
    }
  }

  lemma ClientBooks(fd: int, s: State, e: Event)
    requires (e.Accept? || e.OutOfMemory?) && Step(s, e).Some?
    ensures var s' := Step(s, e).value;
            && e.t < |s.pcs| == |s'.pcs| && s'.pcs == s.pcs[e.t := s'.pcs[e.t]]
            && BooksMove(fd, s, s.pcs[e.t], s', s'.pcs[e.t])
  {
    if e.Accept? {
      SumAppend(Is(fd), s.log.accepted, e.fd);
    } else {
      SumAppend(Is(fd), s.log.refused, s.pcs[e.t].at.fd);
    }
  }

  lemma BroadcastKeepsBooks(fd: int, s: State, t: nat)
    requires Books(fd, s) && t < |s.pcs| && s.pcs[t] == Acceptor(Broadcast)
    ensures Books(fd, s.(pcs := WakeAll(s.pcs)[t := Acceptor(Finished)]))
  {
    WakingCounts(WithAcceptor(fd), s.pcs);
    WakingCounts(WithWorker(fd), s.pcs);
    SumUpdate(WithAcceptor(fd), WakeAll(s.pcs), t, Acceptor(Finished));
    SumUpdate(WithWorker(fd), WakeAll(s.pcs), t, Acceptor(Finished));
  }

  lemma WakingKeepsBooks(fd: int, s: State, t: nat, woken: nat)
    requires Books(fd, s) && t < |s.pcs| && (s.pcs[t] == Acceptor(Signal) || s.pcs[t] == Acceptor(Broadcast))
    requires Step(s, Go(t, woken)).Some?
    ensures Books(fd, Step(s, Go(t, woken)).value)
  {
    var s' := Step(s, Go(t, woken)).value;
    if s.pcs[t].at == Broadcast {
      BroadcastKeepsBooks(fd, s, t);
    } else {
      var mid := Goto(s, t, Acceptor(Unlock));
      MoveKeepsBooks(fd, s, t, mid);
      if IsAsleep(s, woken) {
        MoveKeepsBooks(fd, mid, woken, s');
      }
    }
  }

  lemma {:induction false} StepKeepsBooks(fd: int, s: State, e: Event)
    requires Books(fd, s) && Step(s, e).Some?
    ensures Books(fd, Step(s, e).value)
  {
    var s' := Step(s, e).value;
    match e
    case Accept(_, _) | OutOfMemory(_) =>
      ClientBooks(fd, s, e);
      MoveKeepsBooks(fd, s, e.t, s');
    case ShutDown(t) => MoveKeepsBooks(fd, s, t, s');
    case SpuriousWakeup(t) => MoveKeepsBooks(fd, s, t, s');
    case Go(t, woken) =>
      if s.pcs[t] == Acceptor(Signal) || s.pcs[t] == Acceptor(Broadcast) {
        WakingKeepsBooks(fd, s, t, woken);
      } else {
        if s.pcs[t].Acceptor? {
          AcceptorBooks(fd, s, t);
        } else if s.pcs[t].stage.Check? {
          CheckBooks(fd, s, t);
        } else {
          WorkerBooks(fd, s, t);
        }
        MoveKeepsBooks(fd, s, t, s');
      }
  }

  /** In every run, shutdown included, jobs are taken in the order in which they were added, and
      every descriptor is accounted for as often as it was accepted. */
  lemma {:induction false} JobsInOrder(s: State, schedule: seq<Event>, fd: int)
    requires Init(s) && Exec(Step, s, schedule).Some?
    ensures Books(fd, Exec(Step, s, schedule).value)
  {
    SumZero(WithAcceptor(fd), s.pcs);
    SumZero(WithWorker(fd), s.pcs);
    var inv := (x: State) => Books(fd, x);
    forall x, e | inv(x) && Step(x, e).Some?
      ensures inv(Step(x, e).value)
    {
      StepKeepsBooks(fd, x, e);
    }
    Invariant(Step, inv, s, schedule);
  }

  /** The descriptors that come with the events of a schedule. */
  function Clients(schedule: seq<Event>): seq<int>
  {
    if schedule == [] then []
    else (if schedule[0].Accept? then [schedule[0].fd] else []) + Clients(schedule[1..])
  }

  /** How often memory runs out. */
  function Refusals(schedule: seq<Event>): nat
  {
    if schedule == [] then 0 else (if schedule[0].OutOfMemory? then 1 else 0) + Refusals(schedule[1..])
  }

  lemma StepLogs(s: State, e: Event)
    requires Step(s, e).Some?
    ensures Step(s, e).value.log.accepted == s.log.accepted + Clients([e])
    ensures |Step(s, e).value.log.refused| == |s.log.refused| + Refusals([e])
  {
    assert Clients([e]) == if e.Accept? then [e.fd] else [];
    assert Refusals([e]) == if e.OutOfMemory? then 1 else 0;
    if e.Go? {
      assert Step(s, e).value.log.accepted == s.log.accepted && Step(s, e).value.log.refused == s.log.refused;
    }
  }

  /** Every client that comes is accepted, and one is refused only when memory runs out. */
  lemma {:induction false} ClientsAreAccepted(s: State, schedule: seq<Event>)
    requires Exec(Step, s, schedule).Some?
    ensures Exec(Step, s, schedule).value.log.accepted == s.log.accepted + Clients(schedule)
    ensures |Exec(Step, s, schedule).value.log.refused| == |s.log.refused| + Refusals(schedule)
    decreases |schedule|
  {
    if schedule != [] {
      var next := Step(s, schedule[0]).value;
      StepLogs(s, schedule[0]);
      ClientsAreAccepted(next, schedule[1..]);
      assert Clients([schedule[0]]) == if schedule[0].Accept? then [schedule[0].fd] else [];
      assert Refusals([schedule[0]]) == if schedule[0].OutOfMemory? then 1 else 0;
    }
  }

  // ---------------------------------------------------------------- wakeups

  ghost predicate Local(s: State, t: nat, s': State)
  {
    && t < |s.pcs| == |s'.pcs| && s'.pcs == s.pcs[t := s'.pcs[t]]
    && MutexMoves(s, s.pcs[t], s', s'.pcs[t], t)
    && WakeupMoves(s, s.pcs[t], s', s'.pcs[t])
  }

  ghost predicate MutexMoves(s: State, pc: Pc, s': State, pc': Pc, t: nat)
  {
    && pc.Worker? == pc'.Worker? && (s.shutdown ==> s'.shutdown) && (Leaving(pc') ==> s'.shutdown)
    && (|| (s'.mutex == s.mutex && HoldsMutex(pc') == HoldsMutex(pc))
        || (s.mutex == None && s'.mutex == Some(t) && HoldsMutex(pc'))
        || (s'.mutex == None && HoldsMutex(pc) && !HoldsMutex(pc')))
  }

  ghost predicate WakeupMoves(s: State, pc: Pc, s': State, pc': Pc)
  {
    && pc != Acceptor(Signal)
    && (s'.queue == s.queue || pc' == Acceptor(Signal) || (pc'.Worker? && pc'.stage != Asleep))
    && (pc' == Worker(Asleep) ==> pc == Worker(Asleep) || pc == Worker(CondWait))
    && (pc' == Worker(CondWait) ==> s'.queue == []) && (s'.queue != s.queue ==> HoldsMutex(pc))
  }

  lemma LocalKeepsInv(s: State, t: nat, s': State)
    requires Inv(s) && Local(s, t, s')
    ensures Inv(s')
  {
    var w :| 0 <= w < |s.pcs| && s.pcs[w].Worker?;
    assert s'.pcs[w].Worker?;
    if AllAsleep(s') && !SignalDue(s') && s'.queue != [] {
      forall i | 0 <= i < |s.pcs| && s.pcs[i].Worker?
        ensures s.pcs[i].stage == Asleep
      {
        assert s'.pcs[i].Worker?;
      }
    }
  }

  lemma AcceptorIsLocal(s: State, t: nat)
    requires LockInv(s)
    requires t < |s.pcs| && s.pcs[t].Acceptor? && AcceptorNext(s, t, s.pcs[t].at).Some?
    ensures Local(s, t, AcceptorNext(s, t, s.pcs[t].at).value)
  {
  }

  lemma WorkerIsLocal(s: State, t: nat)
    requires LockInv(s)
    requires t < |s.pcs| && s.pcs[t].Worker? && WorkerNext(s, t, s.pcs[t].stage).Some?
    ensures Local(s, t, WorkerNext(s, t, s.pcs[t].stage).value)
  {
  }

  lemma WakingKeepsInv(s: State, t: nat, woken: nat)
    requires Inv(s) && t < |s.pcs| && s.pcs[t] == Acceptor(Signal) && IsAsleep(s, woken)
    ensures Inv(SignalOne(s, t, woken).value)
  {
    var s' := SignalOne(s, t, woken).value;
    assert s'.pcs[woken] == Worker(WaitForMutex);
  }

  lemma EmptySignalKeepsInv(s: State, t: nat, woken: nat)
    requires Inv(s) && t < |s.pcs| && s.pcs[t] == Acceptor(Signal) && !SomeoneAsleep(s)
    ensures Inv(SignalOne(s, t, woken).value)
  {
    var s' := SignalOne(s, t, woken).value;
    var w :| 0 <= w < |s.pcs| && s.pcs[w].Worker?;
    assert s'.pcs[w].Worker? && !IsAsleep(s, w);
  }

  lemma SignalKeepsInv(s: State, t: nat, woken: nat)
    requires Inv(s) && t < |s.pcs| && s.pcs[t] == Acceptor(Signal) && SignalOne(s, t, woken).Some?
    ensures Inv(SignalOne(s, t, woken).value)
  {
    if IsAsleep(s, woken) {
      WakingKeepsInv(s, t, woken);
    } else {
      EmptySignalKeepsInv(s, t, woken);
    }
  }

  lemma BroadcastKeepsInv(s: State, t: nat, woken: nat)
    requires Inv(s) && t < |s.pcs| && s.pcs[t] == Acceptor(Broadcast) && Step(s, Go(t, woken)).Some?
    ensures Inv(Step(s, Go(t, woken)).value)
  {
    var s' := Step(s, Go(t, woken)).value;
    var w :| 0 <= w < |s.pcs| && s.pcs[w].Worker?;
    assert s'.pcs[w].Worker? && s'.pcs[w].stage != Asleep;
  }

  lemma StepInv(s: State, e: Event)
    requires Inv(s) && Step(s, e).Some?
    ensures Inv(Step(s, e).value)
  {
    var s' := Step(s, e).value;
    if e.Go? && s.pcs[e.t] == Acceptor(Signal) {
      SignalKeepsInv(s, e.t, e.woken);
    } else if e.Go? && s.pcs[e.t] == Acceptor(Broadcast) {
      BroadcastKeepsInv(s, e.t, e.woken);
    } else {
      if e.Go? && s.pcs[e.t].Acceptor? {
        AcceptorIsLocal(s, e.t);
      } else if e.Go? {
        WorkerIsLocal(s, e.t);
      }
      LocalKeepsInv(s, e.t, s');
    }
  }

  lemma {:induction false} ReachesInv(s: State, schedule: seq<Event>)
    requires Init(s) && Exec(Step, s, schedule).Some?
    ensures Inv(Exec(Step, s, schedule).value)
  {
    assert Inv(s) by {
      var w :| 0 <= w < |s.pcs| && s.pcs[w].Worker?;
      assert s.pcs[w].stage != Asleep;
    }
    forall x, e | Inv(x) && Step(x, e).Some?
      ensures Inv(Step(x, e).value)
    {
      StepInv(x, e);
    }
    Invariant(Step, Inv, s, schedule);
  }

  /** In every run, while the queue mutex is free and the pool is not shutting down, the
      workers do not all sleep on a queue with jobs in it, and if any job is left someone can
      go on. */
  lemma {:induction false} NoLostWakeup(s: State, schedule: seq<Event>)
    requires Init(s) && Exec(Step, s, schedule).Some?
    ensures var end := Exec(Step, s, schedule).value;
            && (end.mutex == None && AllAsleep(end) ==> end.queue == [])
            && (!end.shutdown && end.queue != [] ==> exists t, woken :: Step(end, Go(t, woken)).Some?)
  {
    ReachesInv(s, schedule);
    var end := Exec(Step, s, schedule).value;
    if !end.shutdown && end.queue != [] {
      SomeoneServes(end);
    }
  }

  lemma HolderMoves(s: State)
    requires LockInv(s) && s.mutex.Some?
    ensures exists t, woken :: Step(s, Go(t, woken)).Some?
    ensures exists m: Move :: Next(s, m).Some?
  {
    var w :| if SomeoneAsleep(s) then IsAsleep(s, w) else w == 0;
    assert HoldsMutex(s.pcs[s.mutex.value]);
    assert Step(s, Go(s.mutex.value, w)).Some?;
    assert Next(s, Move(s.mutex.value, w)).Some?;
  }

  lemma SomeoneServes(s: State)
    requires Inv(s) && !s.shutdown && s.queue != []
    ensures exists t, woken :: Step(s, Go(t, woken)).Some?
  {
    if s.mutex.Some? {
      HolderMoves(s);
    } else {
      var t :| 0 <= t < |s.pcs| && s.pcs[t].Worker? && s.pcs[t].stage != Asleep;
      assert !HoldsMutex(s.pcs[t]) && !Leaving(s.pcs[t]);
      assert Step(s, Go(t, 0)).Some?;
    }
  }

  // ---------------------------------------------------------------- every descriptor is closed

  datatype Move = Move(t: nat, woken: nat)

  /** Steps of the program itself: no new clients, no failures, no spurious wakeups. */
  function Next(s: State, m: Move): Option<State>
  {
    Step(s, Go(m.t, m.woken))
  }

  function Rank(pc: Pc): int
  {
    match pc
    case Acceptor(at) =>
      (match at
       case Allocate(_) => 22
       case Lock(_) => 21
       case Append(_) => 20
       case Signal => 12
       case Unlock => 5
       case Broadcast => 1
       case Ready => 0
       case Finished => 0)
    case Worker(stage) =>
      match stage
      case Asleep => 0
      case CondWait => 1
      case Check => 2
      case WaitForMutex => 3
      case Close(_) => 4
      case Serve(_) => 5
      case WorkerUnlock(_) => 6
      case ExitUnlock => 0
      case Exited => 0
  }

  /** A job in the queue pays for the round of the worker that takes it. */
  function Work(s: State): int { 6 * |s.queue| + Sum(Rank, s.pcs) }

  ghost predicate Running(s: State)
  {
    Inv(s) && !s.shutdown
  }

  lemma AcceptorLowers(s: State, t: nat)
    requires t < |s.pcs| && s.pcs[t].Acceptor? && AcceptorNext(s, t, s.pcs[t].at).Some?
    ensures var s' := AcceptorNext(s, t, s.pcs[t].at).value;
            && t < |s'.pcs| && 6 * |s'.queue| + Rank(s'.pcs[t]) < 6 * |s.queue| + Rank(s.pcs[t])
            && s'.shutdown == s.shutdown
  {
  }

  lemma WorkerLowers(s: State, t: nat)
    requires !s.shutdown
    requires t < |s.pcs| && s.pcs[t].Worker? && WorkerNext(s, t, s.pcs[t].stage).Some? && !Leaving(s.pcs[t])
    ensures var s' := WorkerNext(s, t, s.pcs[t].stage).value;
            t < |s'.pcs| && 6 * |s'.queue| + Rank(s'.pcs[t]) < 6 * |s.queue| + Rank(s.pcs[t]) && !s'.shutdown
  {
  }

  lemma ServeLowersWork(s: State, m: Move)
    requires Running(s) && Next(s, m).Some?
    ensures Running(Next(s, m).value) && Work(Next(s, m).value) < Work(s)
  {
    var s' := Next(s, m).value;
    StepInv(s, Go(m.t, m.woken));
    if s.pcs[m.t] == Acceptor(Signal) {
      var mid := Goto(s, m.t, Acceptor(Unlock));
      SumUpdate(Rank, s.pcs, m.t, mid.pcs[m.t]);
      if IsAsleep(s, m.woken) {
        SumUpdate(Rank, mid.pcs, m.woken, s'.pcs[m.woken]);
      }
    } else {
      if s.pcs[m.t].Acceptor? {
        AcceptorIsLocal(s, m.t);
        AcceptorLowers(s, m.t);
      } else {
        WorkerIsLocal(s, m.t);
        WorkerLowers(s, m.t);
      }
      SumUpdate(Rank, s.pcs, m.t, s'.pcs[m.t]);
    }
  }

  ghost predicate Stuck(s: State)
  {
    forall m: Move :: Next(s, m).None?
  }

  lemma StuckIsAtRest(s: State)
    requires Running(s) && Stuck(s)
    ensures s.queue == [] && forall t :: 0 <= t < |s.pcs| ==> s.pcs[t] == Acceptor(Ready) || s.pcs[t] == Worker(Asleep)
  {
    if s.mutex.Some? {
      HolderMoves(s);
    }
    forall t | 0 <= t < |s.pcs|
      ensures s.pcs[t] == Acceptor(Ready) || s.pcs[t] == Worker(Asleep)
    {
      assert Next(s, Move(t, 0)).None?;
    }
  }

  lemma {:induction false} ServingIsFinite(s: State, moves: seq<Move>)
    requires Running(s) && Exec(Next, s, moves).Some?
    ensures |moves| <= Work(s) && Running(Exec(Next, s, moves).value)
  {
    forall x, m | Running(x) && Next(x, m).Some?
      ensures Running(Next(x, m).value) && Work(Next(x, m).value) < Work(x)
    {
      ServeLowersWork(x, m);
    }
    Bounded(Next, Running, Work, s, moves);
    Invariant(Next, Running, s, moves);
    SumNonNegative(Rank, Exec(Next, s, moves).value.pcs);
  }

  /** While the pool is not shutting down, the program serves what it has in finitely many
      steps, and where it comes to rest every descriptor it ever accepted has been closed, and
      each was served or refused as often as it was accepted. */
  lemma {:induction false} EveryClientIsServed(s: State, schedule: seq<Event>, moves: seq<Move>)
    requires Init(s) && Exec(Step, s, schedule).Some? && !Exec(Step, s, schedule).value.shutdown
    requires Exec(Next, Exec(Step, s, schedule).value, moves).Some?
    ensures var mid := Exec(Step, s, schedule).value;
            var end := Exec(Next, mid, moves).value;
            && |moves| <= Work(mid)
            && (Stuck(end) ==>
                  && end.queue == [] && end.open == {} && end.log.taken == end.log.added
                  && end.log.accepted == Clients(schedule) && |end.log.refused| == Refusals(schedule)
                  && forall fd :: Copies(fd, end.log.accepted)
                                  == Copies(fd, end.log.served) + Copies(fd, end.log.refused))
  {
    ReachesInv(s, schedule);
    ServingIsFinite(Exec(Step, s, schedule).value, moves);
    var end := Exec(Next, Exec(Step, s, schedule).value, moves).value;
    if Stuck(end) {
      StuckIsAtRest(end);
      forall fd
        ensures fd !in end.open
      {
        OwnedAtEnd(s, schedule, moves, fd);
        SumZero(InHand(fd), end.pcs);
      }
      ClientsAreAccepted(s, schedule);
      BooksAtEnd(s, schedule, moves, 0);
      assert end.log.taken == end.log.added;
      forall fd
        ensures Copies(fd, end.log.accepted) == Copies(fd, end.log.served) + Copies(fd, end.log.refused)
      {
        BooksAtEnd(s, schedule, moves, fd);
        SumZero(WithAcceptor(fd), end.pcs);
        SumZero(WithWorker(fd), end.pcs);
      }
    }
  }

  lemma {:induction false} BooksAtEnd(s: State, schedule: seq<Event>, moves: seq<Move>, fd: int)
    requires Init(s) && Exec(Step, s, schedule).Some?
    requires Exec(Next, Exec(Step, s, schedule).value, moves).Some?
    ensures var mid := Exec(Step, s, schedule).value;
            var end := Exec(Next, mid, moves).value;
            && Books(fd, end) && end.log.accepted == mid.log.accepted && end.log.refused == mid.log.refused
  {
    JobsInOrder(s, schedule, fd);
    var mid := Exec(Step, s, schedule).value;
    var inv := (x: State) => NoMoreClients(fd, mid.log, x);
    forall x, m | inv(x) && Next(x, m).Some?
      ensures inv(Next(x, m).value)
    {
      MoveAddsNoClients(fd, mid.log, x, m);
    }
    Invariant(Next, inv, mid, moves);
  }

  ghost predicate NoMoreClients(fd: int, log: History, s: State)
  {
    Books(fd, s) && s.log.accepted == log.accepted && s.log.refused == log.refused
  }

  lemma MoveAddsNoClients(fd: int, log: History, s: State, m: Move)
    requires NoMoreClients(fd, log, s) && Next(s, m).Some?
    ensures NoMoreClients(fd, log, Next(s, m).value)
  {
    var e := Go(m.t, m.woken);
    StepKeepsBooks(fd, s, e);
    StepLogs(s, e);
    assert Clients([e]) == [] && Refusals([e]) == 0;
    var after := Step(s, e).value.log.refused;
    assert s.log.refused <= after;
  }

  lemma {:induction false} OwnedAtEnd(s: State, schedule: seq<Event>, moves: seq<Move>, fd: int)
    requires Init(s) && Exec(Step, s, schedule).Some?
    requires Exec(Next, Exec(Step, s, schedule).value, moves).Some?
    ensures Owned(fd, Exec(Next, Exec(Step, s, schedule).value, moves).value)
  {
    DescriptorsHaveOneOwner(s, schedule, fd);
    var inv := (x: State) => Owned(fd, x);
    forall x, m | inv(x) && Next(x, m).Some?
      ensures inv(Next(x, m).value)
    {
      StepKeepsOwned(fd, x, Go(m.t, m.woken));
    }
    Invariant(Next, inv, Exec(Step, s, schedule).value, moves);
  }
}
