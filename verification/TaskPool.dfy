/** `pr12task1.c`: producers add tasks to a bounded queue and signal under the queue's own
  mutex; workers wait in a loop for a task.

  Any number of producers, each with its own list of messages, and any number of workers.
 */
module TaskPool {
  import opened Runs
  import opened Tally
  import opened LinkedQueues

  /** `add_task(todo[0])`; at `Lock` with nothing left to do the producer has finished. */
  datatype ProducerStage = Lock | Body | Signal | Unlock

  datatype WorkerStage =
    | WaitForMutex  // at pthread_mutex_lock, or woken and taking the mutex again
    | Check
    | Asleep
    | WorkerUnlock(task: Task)
    | Process(task: Task)

  datatype Pc = Producer(todo: seq<string>, at: ProducerStage) | Worker(stage: WorkerStage)

  /** `accepted`, `taken` and `processed` list tasks, `admitted` and `rejected` the messages that
      producers offered, in the order in which it happened. */
  datatype State = State(
    queue: seq<Task>, nextId: nat, maxSize: nat, mutex: Option<nat>, pcs: seq<Pc>,
    accepted: seq<Task>, admitted: seq<string>, rejected: seq<string>, taken: seq<Task>, processed: seq<Task>)

  /** `woken` is the sleeper a signal picks; other steps do not look at it. */
  datatype Move = Move(t: nat, woken: nat)

  datatype Event = Go(move: Move) | SpuriousWakeup(t: nat)

  ghost predicate Init(s: State)
  {
    && s.queue == s.accepted == s.taken == s.processed == [] && s.admitted == s.rejected == []
    && s.nextId == 0 && s.mutex == None
    && (exists t :: 0 <= t < |s.pcs| && s.pcs[t].Worker?)
    && forall t :: 0 <= t < |s.pcs| ==>
         if s.pcs[t].Worker? then s.pcs[t].stage == WaitForMutex else s.pcs[t].at == Lock
  }

  function Goto(s: State, t: nat, pc: Pc): State
    requires t < |s.pcs|
  {
    s.(pcs := s.pcs[t := pc])
  }

  predicate IsAsleep(s: State, t: nat)
  {
    t < |s.pcs| && s.pcs[t] == Worker(Asleep)
  }

  predicate SomeoneAsleep(s: State)
  {
    exists t :: 0 <= t < |s.pcs| && IsAsleep(s, t)
  }

  function Step(s: State, e: Event): Option<State>
  {
    match e
    case Go(move) => Next(s, move)
    case SpuriousWakeup(t) => if IsAsleep(s, t) then Some(Goto(s, t, Worker(WaitForMutex))) else None
  }

  function Next(s: State, m: Move): Option<State>
  {
    if m.t >= |s.pcs| then None
    else
      match s.pcs[m.t]
      case Producer(todo, at) =>
        if todo == [] then None
        else if at == Signal then SignalOne(s, m.t, todo, m.woken)
        else ProducerNext(s, m.t, todo, at)
      case Worker(stage) => WorkerNext(s, m.t, stage)
  }

  function ProducerNext(s: State, t: nat, todo: seq<string>, at: ProducerStage): Option<State>
    requires t < |s.pcs| && todo != []
  {
    match at
    case Lock => if s.mutex.None? then Some(Goto(s, t, Producer(todo, Body)).(mutex := Some(t))) else None
    case Body =>
      if |s.queue| >= s.maxSize then Some(Goto(s, t, Producer(todo, Unlock)).(rejected := s.rejected + [todo[0]]))
      else
        var task := Task(s.nextId, Cut(todo[0]));
        Some(Goto(s, t, Producer(todo, Signal))
             .(queue := s.queue + [task], accepted := s.accepted + [task], admitted := s.admitted + [todo[0]],
               nextId := s.nextId + 1))
    case Signal => None
    case Unlock => Some(Goto(s, t, Producer(todo[1..], Lock)).(mutex := None))
  }

  function SignalOne(s: State, t: nat, todo: seq<string>, woken: nat): Option<State>
    requires t < |s.pcs|
  {
    if IsAsleep(s, woken) then Some(Goto(Goto(s, t, Producer(todo, Unlock)), woken, Worker(WaitForMutex)))
    else if SomeoneAsleep(s) then None
    else Some(Goto(s, t, Producer(todo, Unlock)))
  }

  function WorkerNext(s: State, t: nat, stage: WorkerStage): Option<State>
    requires t < |s.pcs|
  {
    match stage
    case WaitForMutex => if s.mutex.None? then Some(Goto(s, t, Worker(Check)).(mutex := Some(t))) else None
    case Check =>
      if s.queue == [] then Some(Goto(s, t, Worker(Asleep)).(mutex := None))
      else
        Some(Goto(s, t, Worker(WorkerUnlock(s.queue[0])))
             .(queue := s.queue[1..], taken := s.taken + [s.queue[0]]))
    case Asleep => None
    case WorkerUnlock(task) => Some(Goto(s, t, Worker(Process(task))).(mutex := None))
    case Process(task) => Some(Goto(s, t, Worker(WaitForMutex)).(processed := s.processed + [task]))
  }

  /** A spurious wakeup can come to whoever sleeps, and to nobody else; it leads to the mutex. */
  lemma AnySleeperMayWake(s: State, t: nat)
    requires t < |s.pcs|
    ensures Step(s, SpuriousWakeup(t)).Some? <==> IsAsleep(s, t)
    ensures IsAsleep(s, t) ==> Step(s, SpuriousWakeup(t)).value == s.(pcs := s.pcs[t := Worker(WaitForMutex)])
  {
  }

  // ---------------------------------------------------------------- locks and wakeups

  predicate HoldsMutex(pc: Pc)
  {
    match pc
    case Producer(_, at) => at != Lock
    case Worker(stage) => stage.Check? || stage.WorkerUnlock?
  }

  ghost predicate LockInv(s: State)
  {
    && (s.mutex.Some? ==> s.mutex.value < |s.pcs|)
    && (forall t :: 0 <= t < |s.pcs| ==> (HoldsMutex(s.pcs[t]) <==> s.mutex == Some(t)))
    && (forall t :: 0 <= t < |s.pcs| ==> Busy(s.pcs[t]))
    && (exists t :: 0 <= t < |s.pcs| && s.pcs[t].Worker?)
  }

  predicate Busy(pc: Pc)
  {
    pc.Producer? && pc.todo == [] ==> pc.at == Lock
  }

  ghost predicate AllAsleep(s: State)
  {
    forall t :: 0 <= t < |s.pcs| && s.pcs[t].Worker? ==> s.pcs[t].stage == Asleep
  }

  ghost predicate SignalDue(s: State)
  {
    s.mutex.Some? && s.mutex.value < |s.pcs| && s.pcs[s.mutex.value].Producer? && s.pcs[s.mutex.value].at == Signal
  }

  /** The ids run from 0 in the order of acceptance, the queue is bounded, FIFO, and when all
      the workers sleep it is empty or a signal is due. */
  ghost predicate QueueInv(s: State)
  {
    && s.accepted == s.taken + s.queue && |s.queue| <= s.maxSize && s.nextId == |s.accepted|
    && |s.admitted| == |s.accepted|
    && (forall i :: 0 <= i < |s.accepted| ==> s.accepted[i] == Task(i, Cut(s.admitted[i])))
    && (AllAsleep(s) && !SignalDue(s) ==> s.queue == [])
  }

  ghost predicate Inv(s: State)
  {
    LockInv(s) && QueueInv(s)
  }

  /** Nobody else moves, the mutex changes hands properly, and the queue grows at its end
      before a signal, shrinks at its front, or is seen empty by whoever falls asleep. */
  ghost predicate Local(s: State, t: nat, s': State)
  {
    && t < |s.pcs| == |s'.pcs| && s'.pcs == s.pcs[t := s'.pcs[t]] && s'.maxSize == s.maxSize
    && MutexMoves(s, s.pcs[t], s', s'.pcs[t], t)
    && QueueMoves(s, s.pcs[t], s', s'.pcs[t])
  }

  ghost predicate MutexMoves(s: State, pc: Pc, s': State, pc': Pc, t: nat)
  {
    && pc.Worker? == pc'.Worker? && (Busy(pc) ==> Busy(pc'))
    && (|| (s'.mutex == s.mutex && HoldsMutex(pc') == HoldsMutex(pc))
        || (s.mutex == None && s'.mutex == Some(t) && HoldsMutex(pc'))
        || (s'.mutex == None && HoldsMutex(pc) && !HoldsMutex(pc')))
  }

  ghost predicate QueueMoves(s: State, pc: Pc, s': State, pc': Pc)
  {
    || (Same(s, s') && (pc' == Worker(Asleep) ==> pc == Worker(Asleep) || s.queue == [])
        && !(pc.Producer? && pc.at == Signal))
    || (pc.Producer? && pc.todo != [] && pc'.Producer? && pc'.at == Signal && |s.queue| < s.maxSize
        && var task := Task(s.nextId, Cut(pc.todo[0]));
           && s'.queue == s.queue + [task] && s'.accepted == s.accepted + [task]
           && s'.admitted == s.admitted + [pc.todo[0]]
           && s'.nextId == s.nextId + 1 && s'.taken == s.taken)
    || (s.queue != [] && pc'.Worker? && pc'.stage != Asleep && Same(s, s'.(queue := s.queue, taken := s.taken))
        && s'.queue == s.queue[1..] && s'.taken == s.taken + [s.queue[0]])
  }

  predicate Same(s: State, s': State)
  {
    s'.queue == s.queue && s'.taken == s.taken && s'.accepted == s.accepted && s'.admitted == s.admitted
    && s'.nextId == s.nextId
  }

  lemma ProducerIsLocal(s: State, t: nat)
    requires t < |s.pcs| && s.pcs[t].Producer? && s.pcs[t].todo != []
    requires ProducerNext(s, t, s.pcs[t].todo, s.pcs[t].at).Some?
    ensures Local(s, t, ProducerNext(s, t, s.pcs[t].todo, s.pcs[t].at).value)
  {
  }

  lemma WorkerIsLocal(s: State, t: nat)
    requires t < |s.pcs| && s.pcs[t].Worker? && WorkerNext(s, t, s.pcs[t].stage).Some?
    ensures Local(s, t, WorkerNext(s, t, s.pcs[t].stage).value)
  {
  }

  lemma LocalKeepsLocks(s: State, t: nat, s': State)
    requires LockInv(s) && Local(s, t, s')
    ensures LockInv(s')
  {
    var w :| 0 <= w < |s.pcs| && s.pcs[w].Worker?;
    assert s'.pcs[w].Worker?;
  }

  lemma LocalKeepsQueue(s: State, t: nat, s': State)
    requires Inv(s) && LockInv(s') && Local(s, t, s')
    ensures QueueInv(s')
  {
  }

  /** The signal, made under the mutex: if all the workers sleep one of them is woken. */
  lemma SignalKeepsInv(s: State, t: nat, woken: nat)
    requires Inv(s) && t < |s.pcs| && s.pcs[t].Producer? && s.pcs[t].at == Signal
    requires SignalOne(s, t, s.pcs[t].todo, woken).Some?
    ensures Inv(SignalOne(s, t, s.pcs[t].todo, woken).value)
  {
    var s' := SignalOne(s, t, s.pcs[t].todo, woken).value;
    var w :| 0 <= w < |s.pcs| && s.pcs[w].Worker?;
    assert s'.pcs[w].Worker?;
    if IsAsleep(s, woken) {
      assert s'.pcs[woken] == Worker(WaitForMutex);
    } else {
      assert !IsAsleep(s, w);
      assert s'.pcs[w].stage != Asleep;
    }
  }

  lemma StepInv(s: State, e: Event)
    requires Inv(s) && Step(s, e).Some?
    ensures Inv(Step(s, e).value)
  {
    var s' := Step(s, e).value;
    match e
    case SpuriousWakeup(t) =>
      LocalKeepsLocks(s, t, s');
      LocalKeepsQueue(s, t, s');
    case Go(m) =>
      if s.pcs[m.t].Producer? && s.pcs[m.t].at == Signal {
        SignalKeepsInv(s, m.t, m.woken);
      } else {
        if s.pcs[m.t].Producer? {
          ProducerIsLocal(s, m.t);
        } else {
          WorkerIsLocal(s, m.t);
        }
        LocalKeepsLocks(s, m.t, s');
        LocalKeepsQueue(s, m.t, s');
      }
  }

  // ---------------------------------------------------------------- the books

  function Carries(pc: Pc): Option<Task>
  {
    match pc
    case Worker(WorkerUnlock(task)) => Some(task)
    case Worker(Process(task)) => Some(task)
    case _ => None
  }

  /** Copies of task `v` a worker has taken and not yet processed. */
  function InHand(v: Task): Pc -> int
  {
    (pc: Pc) => if Carries(pc) == Some(v) then 1 else 0
  }

  /** The messages a producer has still to offer. */
  function Unoffered(pc: Pc): seq<string>
  {
    if pc.Worker? || pc.todo == [] then [] else if pc.at == Lock || pc.at == Body then pc.todo else pc.todo[1..]
  }

  /** Copies of message `m` a producer has still to offer. */
  function Owed(m: string): Pc -> int
  {
    (pc: Pc) => Copies(m, Unoffered(pc))
  }

  /** Task `v` is processed once or in one worker's hands for each time it was taken, and every
      copy of message `m`, of which there were `total`, has been accepted or rejected or is
      still to be offered. */
  ghost predicate Books(v: Task, m: string, total: int, s: State)
  {
    && Copies(v, s.taken) == Copies(v, s.processed) + Sum(InHand(v), s.pcs)
    && Copies(m, s.admitted) + Copies(m, s.rejected) + Sum(Owed(m), s.pcs) == total
  }

  ghost predicate BooksMove(v: Task, m: string, s: State, pc: Pc, s': State, pc': Pc)
  {
    && Copies(v, s'.taken) - Copies(v, s'.processed) - InHand(v)(pc')
       == Copies(v, s.taken) - Copies(v, s.processed) - InHand(v)(pc)
    && Copies(m, s'.admitted) + Copies(m, s'.rejected) + Owed(m)(pc')
       == Copies(m, s.admitted) + Copies(m, s.rejected) + Owed(m)(pc)
  }

  lemma ProducerBooks(s: State, t: nat, v: Task, m: string)
    requires t < |s.pcs| && s.pcs[t].Producer? && s.pcs[t].todo != []
    requires ProducerNext(s, t, s.pcs[t].todo, s.pcs[t].at).Some?
    ensures var s' := ProducerNext(s, t, s.pcs[t].todo, s.pcs[t].at).value;
            t < |s'.pcs| && BooksMove(v, m, s, s.pcs[t], s', s'.pcs[t])
  {
    var todo := s.pcs[t].todo;
    if s.pcs[t].at == Body {
      assert Copies(m, todo) == Is(m)(todo[0]) + Copies(m, todo[1..]);
      SumAppend(Is(m), s.admitted, todo[0]);
      SumAppend(Is(m), s.rejected, todo[0]);
    }
  }

  lemma WorkerBooks(s: State, t: nat, v: Task, m: string)
    requires t < |s.pcs| && s.pcs[t].Worker? && WorkerNext(s, t, s.pcs[t].stage).Some?
    ensures var s' := WorkerNext(s, t, s.pcs[t].stage).value;
            t < |s'.pcs| && BooksMove(v, m, s, s.pcs[t], s', s'.pcs[t])
  {
    if s.queue != [] {
      SumAppend(Is(v), s.taken, s.queue[0]);
    }
    if s.pcs[t].stage.Process? {
      SumAppend(Is(v), s.processed, s.pcs[t].stage.task);
    }
  }

  lemma MoveKeepsBooks(v: Task, m: string, total: int, s: State, t: nat, s': State)
    requires Books(v, m, total, s) && t < |s.pcs| == |s'.pcs| && s'.pcs == s.pcs[t := s'.pcs[t]]
    requires BooksMove(v, m, s, s.pcs[t], s', s'.pcs[t])
    ensures Books(v, m, total, s')
  {
    SumUpdate(InHand(v), s.pcs, t, s'.pcs[t]);
    SumUpdate(Owed(m), s.pcs, t, s'.pcs[t]);
  }

  lemma SignalKeepsBooks(v: Task, m: string, total: int, s: State, t: nat, woken: nat)
    requires Books(v, m, total, s) && t < |s.pcs| && s.pcs[t].Producer? && s.pcs[t].at == Signal
    requires SignalOne(s, t, s.pcs[t].todo, woken).Some?
    ensures Books(v, m, total, SignalOne(s, t, s.pcs[t].todo, woken).value)
  {
    var mid := Goto(s, t, Producer(s.pcs[t].todo, Unlock));
    MoveKeepsBooks(v, m, total, s, t, mid);
    if IsAsleep(s, woken) {
      MoveKeepsBooks(v, m, total, mid, woken, Goto(mid, woken, Worker(WaitForMutex)));
    }
  }

  lemma StepBooks(v: Task, m: string, total: int, s: State, e: Event)
    requires Books(v, m, total, s) && Step(s, e).Some?
    ensures Books(v, m, total, Step(s, e).value)
  {
    var s' := Step(s, e).value;
    match e
    case SpuriousWakeup(t) =>
      MoveKeepsBooks(v, m, total, s, t, s');
    case Go(move) =>
      if s.pcs[move.t].Worker? {
        WorkerBooks(s, move.t, v, m);
        WorkerIsLocal(s, move.t);
        MoveKeepsBooks(v, m, total, s, move.t, s');
      } else if s.pcs[move.t].at != Signal {
        ProducerBooks(s, move.t, v, m);
        ProducerIsLocal(s, move.t);
        MoveKeepsBooks(v, m, total, s, move.t, s');
      } else {
        SignalKeepsBooks(v, m, total, s, move.t, move.woken);
      }
  }

  // ---------------------------------------------------------------- every run ends

  function Rank(pc: Pc): int
  {
    match pc
    case Producer(todo, at) => 10 * |todo| - (match at case Lock => 0 case Body => 1 case Signal => 6 case Unlock => 9)
    case Worker(stage) =>
      match stage
      case Asleep => 0
      case Check => 1
      case WaitForMutex => 2
      case Process(_) => 3
      case WorkerUnlock(_) => 4
  }

  /** A task in the queue pays for the round of the worker that takes it. */
  function Work(s: State): int { 4 * |s.queue| + Sum(Rank, s.pcs) }

  lemma MoveLowersWork(s: State, m: Move)
    requires Inv(s) && Next(s, m).Some?
    ensures Work(Next(s, m).value) < Work(s)
  {
    var s' := Next(s, m).value;
    if s.pcs[m.t].Producer? && s.pcs[m.t].at == Signal {
      var mid := Goto(s, m.t, Producer(s.pcs[m.t].todo, Unlock));
      SumUpdate(Rank, s.pcs, m.t, mid.pcs[m.t]);
      if IsAsleep(s, m.woken) {
        SumUpdate(Rank, mid.pcs, m.woken, s'.pcs[m.woken]);
      }
    } else {
      if s.pcs[m.t].Producer? {
        ProducerIsLocal(s, m.t);
      } else {
        WorkerIsLocal(s, m.t);
      }
      SumUpdate(Rank, s.pcs, m.t, s'.pcs[m.t]);
    }
  }

  ghost predicate Stuck(s: State)
  {
    forall m: Move :: Next(s, m).None?
  }

  ghost predicate Done(s: State)
  {
    && s.queue == []
    && forall t :: 0 <= t < |s.pcs| ==> s.pcs[t] == Worker(Asleep) || s.pcs[t] == Producer([], Lock)
  }

  lemma HolderMoves(s: State)
    requires LockInv(s) && s.mutex.Some?
    ensures exists m: Move :: Next(s, m).Some?
  {
    var t := s.mutex.value;
    var w :| if SomeoneAsleep(s) then IsAsleep(s, w) else w == 0;
    assert HoldsMutex(s.pcs[t]);
    assert Next(s, Move(t, w)).Some?;
  }

  lemma StuckIsDone(s: State)
    requires Inv(s) && Stuck(s)
    ensures Done(s)
  {
    if s.mutex.Some? {
      HolderMoves(s);
    }
    forall t | 0 <= t < |s.pcs|
      ensures s.pcs[t] == Worker(Asleep) || s.pcs[t] == Producer([], Lock)
    {
      assert Next(s, Move(t, 0)).None?;
    }
  }

  lemma InitInv(s: State)
    requires Init(s)
    ensures Inv(s)
  {
    var w :| 0 <= w < |s.pcs| && s.pcs[w].Worker?;
    assert s.pcs[w].stage != Asleep;
  }

  lemma {:induction false} Reachable(s: State, schedule: seq<Event>)
    requires Init(s) && Exec(Step, s, schedule).Some?
    ensures Inv(Exec(Step, s, schedule).value)
  {
    InitInv(s);
    forall x, e | Inv(x) && Step(x, e).Some?
      ensures Inv(Step(x, e).value)
    {
      StepInv(x, e);
    }
    Invariant(Step, Inv, s, schedule);
  }

  /** What the order of acceptance says of the tasks taken and of those still queued. */
  lemma QueueReads(s: State)
    requires QueueInv(s)
    ensures forall i :: 0 <= i < |s.taken| ==> s.taken[i].id == i
    ensures forall i :: 0 <= i < |s.queue| ==> s.queue[i].id == s.nextId - |s.queue| + i
  {
    assert forall i :: 0 <= i < |s.taken| ==> s.accepted[i] == s.taken[i];
    assert forall i :: 0 <= i < |s.queue| ==> s.accepted[|s.taken| + i] == s.queue[i];
  }

  /** In every run: the queue never exceeds its bound, the queued ids are consecutive and end
      just below the counter, the tasks taken are 0, 1, 2, ... in that order, and while the
      mutex is free the workers sleep only on an empty queue. */
  lemma {:induction false} QueueDiscipline(s: State, schedule: seq<Event>)
    requires Init(s) && Exec(Step, s, schedule).Some?
    ensures var end := Exec(Step, s, schedule).value;
            && |end.queue| <= end.maxSize
            && (forall i :: 0 <= i < |end.queue| ==> end.queue[i].id == end.nextId - |end.queue| + i)
            && (forall i :: 0 <= i < |end.taken| ==> end.taken[i].id == i)
            && |end.taken| + |end.queue| == end.nextId
            && (end.mutex == None && AllAsleep(end) ==> end.queue == [])
  {
    Reachable(s, schedule);
    QueueReads(Exec(Step, s, schedule).value);
  }

  lemma {:induction false} BooksBalance(s: State, schedule: seq<Event>, v: Task, m: string)
    requires Init(s) && Exec(Step, s, schedule).Some?
    ensures Books(v, m, Sum(Owed(m), s.pcs), Exec(Step, s, schedule).value)
  {
    SumZero(InHand(v), s.pcs);
    var total := Sum(Owed(m), s.pcs);
    var inv := (x: State) => Books(v, m, total, x);
    forall x, e | inv(x) && Step(x, e).Some?
      ensures inv(Step(x, e).value)
    {
      StepBooks(v, m, total, x, e);
    }
    Invariant(Step, inv, s, schedule);
  }

  lemma MoveGoesDown(s: State, m: Move)
    requires Inv(s) && Next(s, m).Some?
    ensures Inv(Next(s, m).value) && Work(Next(s, m).value) < Work(s)
  {
    assert Step(s, Go(m)) == Next(s, m);
    StepInv(s, Go(m));
    MoveLowersWork(s, m);
  }

  lemma WorkIsNatural(s: State)
    requires Inv(s)
    ensures Work(s) >= 0
  {
    SumNonNegative(Rank, s.pcs);
  }

  lemma {:induction false} EveryRunIsFinite(s: State, moves: seq<Move>)
    requires Init(s) && Exec(Next, s, moves).Some?
    ensures |moves| <= Work(s) && Inv(Exec(Next, s, moves).value)
  {
    InitInv(s);
    forall x, m | Inv(x) && Next(x, m).Some?
      ensures Inv(Next(x, m).value) && Work(Next(x, m).value) < Work(x)
    {
      MoveGoesDown(x, m);
    }
    Bounded(Next, Inv, Work, s, moves);
    Invariant(Next, Inv, s, moves);
    WorkIsNatural(Exec(Next, s, moves).value);
  }

  function AsSchedule(moves: seq<Move>): seq<Event>
  {
    Events((m: Move) => Go(m), moves)
  }

  lemma {:induction false} RunIsSchedule(s: State, moves: seq<Move>)
    requires Exec(Next, s, moves).Some?
    ensures Exec(Step, s, AsSchedule(moves)) == Exec(Next, s, moves)
  {
    Relabelled(Step, Next, (m: Move) => Go(m), s, moves);
  }

  lemma {:induction false} DoneHasProcessed(s: State, schedule: seq<Event>, v: Task, m: string)
    requires Init(s) && Exec(Step, s, schedule).Some? && Done(Exec(Step, s, schedule).value)
    ensures var end := Exec(Step, s, schedule).value;
            && Copies(v, end.taken) == Copies(v, end.processed)
            && Copies(m, end.admitted) + Copies(m, end.rejected) == Sum(Owed(m), s.pcs)
  {
    var end := Exec(Step, s, schedule).value;
    BooksBalance(s, schedule, v, m);
    SumZero(InHand(v), end.pcs);
    SumZero(Owed(m), end.pcs);
  }

  /** Without spurious wakeups every run is finite, and where it ends the queue is empty, every
      worker sleeps, every message has been accepted or rejected as often as it was offered, the
      i-th accepted one has become task i, and each accepted task has been processed exactly
      once. */
  lemma {:induction false} EveryRunProcessesEverything(s: State, moves: seq<Move>)
    requires Init(s) && Exec(Next, s, moves).Some?
    ensures var end := Exec(Next, s, moves).value;
            && |moves| <= Work(s)
            && (Stuck(end) ==>
                  && Done(end) && end.taken == end.accepted && |end.admitted| == |end.accepted|
                  && (forall i :: 0 <= i < |end.accepted| ==> end.accepted[i] == Task(i, Cut(end.admitted[i])))
                  && (forall m :: Copies(m, end.admitted) + Copies(m, end.rejected) == Sum(Owed(m), s.pcs))
                  && forall v :: Copies(v, end.processed) == Copies(v, end.accepted))
  {
    EveryRunIsFinite(s, moves);
    var end := Exec(Next, s, moves).value;
    if Stuck(end) {
      StuckIsDone(end);
      RunIsSchedule(s, moves);
      var schedule := AsSchedule(moves);
      assert end.taken == end.accepted;
      forall v
        ensures Copies(v, end.processed) == Copies(v, end.accepted)
      {
        DoneHasProcessed(s, schedule, v, "");
      }
      forall m
        ensures Copies(m, end.admitted) + Copies(m, end.rejected) == Sum(Owed(m), s.pcs)
      {
        DoneHasProcessed(s, schedule, Task(0, ""), m);
      }
    }
  }

  // ---------------------------------------------------------------- rejections

  /** What `add_task` does with a message: a full queue rejects it and stays as it is, any other
      queue takes it in at its end. */
  lemma RejectsExactlyWhenFull(s: State, t: nat, woken: nat)
    requires Inv(s) && t < |s.pcs| && s.pcs[t].Producer? && s.pcs[t].at == Body
    ensures var s' := Next(s, Move(t, woken));
            && s'.Some?
            && var m := s.pcs[t].todo[0];
               if |s.queue| == s.maxSize then
                 && s'.value.rejected == s.rejected + [m] && s'.value.queue == s.queue
                 && s'.value.admitted == s.admitted && s'.value.pcs[t].at == Unlock
               else
                 && s'.value.queue == s.queue + [Task(s.nextId, Cut(m))]
                 && s'.value.admitted == s.admitted + [m] && s'.value.rejected == s.rejected
  {
  }

  lemma OnlyProducersReject(s: State, e: Event)
    requires Inv(s) && Step(s, e).Some? && Step(s, e).value.rejected != s.rejected
    ensures e.Go? && e.move.t < |s.pcs| && s.pcs[e.move.t].Producer? && s.pcs[e.move.t].at == Body
    ensures |s.queue| == s.maxSize
  {
  }

  /** How many messages a producer has still to offer. */
  function Left(pc: Pc): int { |Unoffered(pc)| }

  /** Of so many messages in all none has been rejected. */
  ghost predicate NoneRejected(total: int, s: State)
  {
    Inv(s) && s.rejected == [] && |s.admitted| + Sum(Left, s.pcs) == total <= s.maxSize
  }

  lemma LeftIsNatural(pcs: seq<Pc>)
    ensures Sum(Left, pcs) >= 0
  {
    SumNonNegative(Left, pcs);
  }

  lemma BodyStaysAccepted(total: int, s: State, t: nat)
    requires NoneRejected(total, s) && t < |s.pcs| && s.pcs[t].Producer? && s.pcs[t].todo != []
    requires s.pcs[t].at == Body
    ensures var s' := ProducerNext(s, t, s.pcs[t].todo, Body).value;
            s'.rejected == [] && |s'.admitted| + Sum(Left, s'.pcs) == total <= s'.maxSize
  {
    SumBound(Left, s.pcs, t);
    assert |s.queue| <= |s.accepted| == |s.admitted| < total;
    SumUpdate(Left, s.pcs, t, Producer(s.pcs[t].todo, Signal));
  }

  lemma ProducerStaysAccepted(total: int, s: State, t: nat)
    requires NoneRejected(total, s) && t < |s.pcs| && s.pcs[t].Producer? && s.pcs[t].todo != []
    requires s.pcs[t].at != Body
    requires ProducerNext(s, t, s.pcs[t].todo, s.pcs[t].at).Some?
    ensures var s' := ProducerNext(s, t, s.pcs[t].todo, s.pcs[t].at).value;
            s'.rejected == [] && |s'.admitted| + Sum(Left, s'.pcs) == total <= s'.maxSize
  {
    SumUpdate(Left, s.pcs, t, ProducerNext(s, t, s.pcs[t].todo, s.pcs[t].at).value.pcs[t]);
  }

  lemma WorkerStaysAccepted(total: int, s: State, t: nat)
    requires NoneRejected(total, s) && t < |s.pcs| && s.pcs[t].Worker? && WorkerNext(s, t, s.pcs[t].stage).Some?
    ensures var s' := WorkerNext(s, t, s.pcs[t].stage).value;
            s'.rejected == [] && |s'.admitted| + Sum(Left, s'.pcs) == total <= s'.maxSize
  {
    SumUpdate(Left, s.pcs, t, WorkerNext(s, t, s.pcs[t].stage).value.pcs[t]);
  }

  lemma SignalStaysAccepted(total: int, s: State, t: nat, woken: nat)
    requires NoneRejected(total, s) && t < |s.pcs| && s.pcs[t].Producer? && s.pcs[t].at == Signal
    requires SignalOne(s, t, s.pcs[t].todo, woken).Some?
    ensures var s' := SignalOne(s, t, s.pcs[t].todo, woken).value;
            s'.rejected == [] && |s'.admitted| + Sum(Left, s'.pcs) == total <= s'.maxSize
  {
    var mid := s.pcs[t := Producer(s.pcs[t].todo, Unlock)];
    SumUpdate(Left, s.pcs, t, mid[t]);
    if IsAsleep(s, woken) {
      SumUpdate(Left, mid, woken, Worker(WaitForMutex));
    }
  }

  lemma StepRejectsNone(total: int, s: State, e: Event)
    requires NoneRejected(total, s) && Step(s, e).Some?
    ensures NoneRejected(total, Step(s, e).value)
  {
    StepInv(s, e);
    match e
    case SpuriousWakeup(t) => SumUpdate(Left, s.pcs, t, Worker(WaitForMutex));
    case Go(move) =>
      if s.pcs[move.t].Worker? {
        WorkerStaysAccepted(total, s, move.t);
      } else if s.pcs[move.t].at == Signal {
        SignalStaysAccepted(total, s, move.t, move.woken);
      } else if s.pcs[move.t].at == Body {
        BodyStaysAccepted(total, s, move.t);
      } else {
        ProducerStaysAccepted(total, s, move.t);
      }
  }

  lemma {:induction false} NoneIsRejected(s: State, schedule: seq<Event>)
    requires Init(s) && Sum(Left, s.pcs) <= s.maxSize && Exec(Step, s, schedule).Some?
    ensures Exec(Step, s, schedule).value.rejected == []
  {
    InitInv(s);
    var total := Sum(Left, s.pcs);
    var inv := (x: State) => NoneRejected(total, x);
    forall x, e | inv(x) && Step(x, e).Some?
      ensures inv(Step(x, e).value)
    {
      StepRejectsNone(total, x, e);
    }
    Invariant(Step, inv, s, schedule);
  }

  /** If no more messages are offered than the queue has room for, every run without spurious
      wakeups ends with each of them processed as often as it was offered: the i-th accepted one
      is task i, and processed once. */
  lemma {:induction false} SmallLoadIsProcessed(s: State, moves: seq<Move>)
    requires Init(s) && Sum(Left, s.pcs) <= s.maxSize && Exec(Next, s, moves).Some?
    requires Stuck(Exec(Next, s, moves).value)
    ensures var end := Exec(Next, s, moves).value;
            && end.rejected == [] && |end.admitted| == |end.accepted|
            && (forall m :: Copies(m, end.admitted) == Sum(Owed(m), s.pcs))
            && (forall i :: 0 <= i < |end.accepted| ==> end.accepted[i] == Task(i, Cut(end.admitted[i])))
            && forall v :: Copies(v, end.processed) == Copies(v, end.accepted)
  {
    EveryRunProcessesEverything(s, moves);
    RunIsSchedule(s, moves);
    NoneIsRejected(s, AsSchedule(moves));
    var end := Exec(Next, s, moves).value;
    forall m
      ensures Copies(m, end.admitted) == Sum(Owed(m), s.pcs)
    {
      assert Copies(m, end.rejected) == 0;
    }
  }

  /** Producers between two messages, and workers who have not begun. */
  ghost predicate Quiet(s: State)
  {
    && s.mutex == None && |s.queue| <= s.maxSize
    && forall t :: 0 <= t < |s.pcs| ==>
         s.pcs[t] == Worker(WaitForMutex) || (s.pcs[t].Producer? && s.pcs[t].at == Lock)
  }

  lemma {:induction false} SomeoneHasLeft(pcs: seq<Pc>)
    requires Sum(Left, pcs) > 0
    ensures exists t :: 0 <= t < |pcs| && pcs[t].Producer? && pcs[t].todo != []
  {
    if forall t :: 0 <= t < |pcs| ==> !(pcs[t].Producer? && pcs[t].todo != []) {
      SumZero(Left, pcs);
    }
  }

  /** A producer brings in one message while nobody else moves. */
  lemma {:induction false} OneMessage(s: State, t: nat)
    requires Quiet(s) && t < |s.pcs| && s.pcs[t].Producer? && s.pcs[t].todo != [] && |s.queue| < s.maxSize
    ensures exists s' :: Reaches(Step, s, s') && Quiet(s') && s'.maxSize == s.maxSize
                         && |s'.queue| == |s.queue| + 1 && s'.pcs == s.pcs[t := Producer(s.pcs[t].todo[1..], Lock)]
  {
    var go := Go(Move(t, 0));
    var s1 := Step(s, go).value;
    var s2 := Step(s1, go).value;
    assert s2.pcs[t] == Producer(s.pcs[t].todo, Signal);
    assert !IsAsleep(s2, 0) && !SomeoneAsleep(s2);
    var s3 := Step(s2, go).value;
    var s4 := Step(s3, go).value;
    assert s4.pcs == s.pcs[t := Producer(s.pcs[t].todo[1..], Lock)];
    ReachesStay(Step, s);
    ReachesStep(Step, s, s, go, s1);
    ReachesStep(Step, s, s1, go, s2);
    ReachesStep(Step, s, s2, go, s3);
    ReachesStep(Step, s, s3, go, s4);
  }

  lemma {:induction false} FullQueueRejects(s: State, t: nat)
    requires Quiet(s) && t < |s.pcs| && s.pcs[t].Producer? && s.pcs[t].todo != [] && |s.queue| == s.maxSize
    ensures exists s' :: Reaches(Step, s, s') && s'.rejected != []
  {
    var go := Go(Move(t, 0));
    var s1 := Step(s, go).value;
    var s2 := Step(s1, go).value;
    ReachesStay(Step, s);
    ReachesStep(Step, s, s, go, s1);
    ReachesStep(Step, s, s1, go, s2);
    assert |s2.rejected| == |s.rejected| + 1;
  }

  lemma {:induction false} OverloadCanReject(s: State)
    requires Quiet(s) && |s.queue| + Sum(Left, s.pcs) > s.maxSize
    ensures exists s' :: Reaches(Step, s, s') && s'.rejected != []
    decreases Sum(Left, s.pcs)
  {
    SomeoneHasLeft(s.pcs);
    var t :| 0 <= t < |s.pcs| && s.pcs[t].Producer? && s.pcs[t].todo != [];
    if |s.queue| == s.maxSize {
      FullQueueRejects(s, t);
    } else {
      OneMessage(s, t);
      var mid :| Reaches(Step, s, mid) && Quiet(mid) && mid.maxSize == s.maxSize && |mid.queue| == |s.queue| + 1
                 && mid.pcs == s.pcs[t := Producer(s.pcs[t].todo[1..], Lock)];
      SumUpdate(Left, s.pcs, t, mid.pcs[t]);
      LeftIsNatural(mid.pcs);
      OverloadCanReject(mid);
      var end :| Reaches(Step, mid, end) && end.rejected != [];
      ReachesOn(Step, s, mid, end);
    }
  }

  /** No run rejects a message if and only if no more are offered in all than the queue has
      room for. */
  lemma {:induction false} NoneRejectedIff(s: State)
    requires Init(s)
    ensures (forall schedule :: Exec(Step, s, schedule).Some? ==> Exec(Step, s, schedule).value.rejected == [])
            <==> Sum(Left, s.pcs) <= s.maxSize
  {
    if Sum(Left, s.pcs) <= s.maxSize {
      forall schedule | Exec(Step, s, schedule).Some?
        ensures Exec(Step, s, schedule).value.rejected == []
      {
        NoneIsRejected(s, schedule);
      }
    } else {
      OverloadCanReject(s);
      var end :| Reaches(Step, s, end) && end.rejected != [];
      var schedule: seq<Event> :| Exec(Step, s, schedule) == Some(end);
      assert Exec(Step, s, schedule).Some? && Exec(Step, s, schedule).value.rejected != [];
    }
  }
}
