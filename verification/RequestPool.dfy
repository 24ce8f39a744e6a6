/** `pr12task2.c`: handlers serve requests from a queue with one mutex and sleep on a
  condition variable with another.

  Any number of adders, each with its own list of requests, and any number of handlers.
  `pthread_cond_wait` releases `cond_mutex` and falls asleep in one step and takes the mutex
  again on waking; `pthread_cond_signal` wakes one sleeper, any one, if there is one.
 */
module RequestPool {
  import opened Runs
  import opened Tally

  /** `add_request(todo[0])`; at `Lock` with nothing left to do the adder has finished. */
  datatype AddStage = Lock | Append | Unlock | CondLock | Signal | CondUnlock

  /** `get_request()`. */
  datatype GetStage = GetLock | Take | GetUnlock(got: Option<int>)

  /** `handle_requests_loop`: the first `get_request`, then the one under `cond_mutex`. */
  datatype HandlerStage =
    | First(get: GetStage)
    | HandlerCondLock
    | Second(get: GetStage)
    | Wait | Asleep | Relock
    | HandlerCondUnlock(got: Option<int>)
    | Handle(request: int)

  datatype Pc = Adder(todo: seq<int>, at: AddStage) | Handler(stage: HandlerStage)

  /** `added`, `taken` and `handled` list requests in the order in which it happened. */
  datatype State = State(
    queue: seq<int>, queueMutex: Option<nat>, condMutex: Option<nat>, pcs: seq<Pc>,
    added: seq<int>, taken: seq<int>, handled: seq<int>)

  /** `woken` is the sleeper a signal picks; other steps do not look at it. */
  datatype Move = Move(t: nat, woken: nat)

  datatype Event = Go(move: Move) | SpuriousWakeup(t: nat)

  ghost predicate Init(s: State)
  {
    && s.queue == s.added == s.taken == s.handled == [] && s.queueMutex == s.condMutex == None
    && (exists t :: 0 <= t < |s.pcs| && s.pcs[t].Handler?)
    && forall t :: 0 <= t < |s.pcs| ==> Starting(s.pcs[t])
  }

  predicate Starting(pc: Pc)
  {
    match pc
    case Adder(_, at) => at == Lock
    case Handler(stage) => stage == First(GetLock)
  }

  function Goto(s: State, t: nat, pc: Pc): State
    requires t < |s.pcs|
  {
    s.(pcs := s.pcs[t := pc])
  }

  predicate IsAsleep(s: State, t: nat)
  {
    t < |s.pcs| && s.pcs[t] == Handler(Asleep)
  }

  predicate SomeoneAsleep(s: State)
  {
    exists t :: 0 <= t < |s.pcs| && IsAsleep(s, t)
  }

  function Step(s: State, e: Event): Option<State>
  {
    match e
    case Go(move) => Next(s, move)
    case SpuriousWakeup(t) => if IsAsleep(s, t) then Some(Goto(s, t, Handler(Relock))) else None
  }

  function Next(s: State, m: Move): Option<State>
  {
    if m.t >= |s.pcs| then None
    else
      match s.pcs[m.t]
      case Adder(todo, at) =>
        if todo == [] then None
        else if at == Signal then SignalOne(s, m.t, todo, m.woken)
        else AdderNext(s, m.t, todo, at)
      case Handler(stage) => HandlerNext(s, m.t, stage)
  }

  function AdderNext(s: State, t: nat, todo: seq<int>, at: AddStage): Option<State>
    requires t < |s.pcs| && todo != []
  {
    match at
    case Lock => if s.queueMutex.None? then Some(Goto(s, t, Adder(todo, Append)).(queueMutex := Some(t))) else None
    case Append =>
      Some(Goto(s, t, Adder(todo, Unlock)).(queue := s.queue + [todo[0]], added := s.added + [todo[0]]))
    case Unlock => Some(Goto(s, t, Adder(todo, CondLock)).(queueMutex := None))
    case CondLock => if s.condMutex.None? then Some(Goto(s, t, Adder(todo, Signal)).(condMutex := Some(t))) else None
    case Signal => None
    case CondUnlock => Some(Goto(s, t, Adder(todo[1..], Lock)).(condMutex := None))
  }

  function SignalOne(s: State, t: nat, todo: seq<int>, woken: nat): Option<State>
    requires t < |s.pcs|
  {
    if IsAsleep(s, woken) then Some(Goto(Goto(s, t, Adder(todo, CondUnlock)), woken, Handler(Relock)))
    else if SomeoneAsleep(s) then None
    else Some(Goto(s, t, Adder(todo, CondUnlock)))
  }

  function HandlerNext(s: State, t: nat, stage: HandlerStage): Option<State>
    requires t < |s.pcs|
  {
    match stage
    case First(GetUnlock(got)) =>
      Some(Goto(s, t, Handler(if got.Some? then Handle(got.value) else HandlerCondLock)).(queueMutex := None))
    case First(get) => GetNext(s, t, get, true)
    case HandlerCondLock =>
      if s.condMutex.None? then Some(Goto(s, t, Handler(Second(GetLock))).(condMutex := Some(t))) else None
    case Second(GetUnlock(got)) =>
      Some(Goto(s, t, Handler(if got.Some? then HandlerCondUnlock(got) else Wait)).(queueMutex := None))
    case Second(get) => GetNext(s, t, get, false)
    case Wait => Some(Goto(s, t, Handler(Asleep)).(condMutex := None))
    case Asleep => None
    case Relock =>
      if s.condMutex.None? then Some(Goto(s, t, Handler(HandlerCondUnlock(None))).(condMutex := Some(t))) else None
    case HandlerCondUnlock(got) =>
      Some(Goto(s, t, Handler(if got.Some? then Handle(got.value) else First(GetLock))).(condMutex := None))
    case Handle(request) => Some(Goto(s, t, Handler(First(GetLock))).(handled := s.handled + [request]))
  }

  function Getting(first: bool, get: GetStage): Pc
  {
    Handler(if first then First(get) else Second(get))
  }

  function GetNext(s: State, t: nat, get: GetStage, first: bool): Option<State>
    requires t < |s.pcs|
  {
    match get
    case GetLock =>
      if s.queueMutex.None? then Some(Goto(s, t, Getting(first, Take)).(queueMutex := Some(t))) else None
    case Take =>
      if s.queue == [] then Some(Goto(s, t, Getting(first, GetUnlock(None))))
      else
        Some(Goto(s, t, Getting(first, GetUnlock(Some(s.queue[0]))))
             .(queue := s.queue[1..], taken := s.taken + [s.queue[0]]))
    case GetUnlock(_) => None
  }

  /** A spurious wakeup can come to whoever sleeps, and to nobody else; it leads to the mutex. */
  lemma AnySleeperMayWake(s: State, t: nat)
    requires t < |s.pcs|
    ensures Step(s, SpuriousWakeup(t)).Some? <==> IsAsleep(s, t)
    ensures IsAsleep(s, t) ==> Step(s, SpuriousWakeup(t)).value == s.(pcs := s.pcs[t := Handler(Relock)])
  {
  }

  // ---------------------------------------------------------------- invariants

  predicate HoldsQueueMutex(pc: Pc)
  {
    match pc
    case Adder(_, at) => at == Append || at == Unlock
    case Handler(stage) => (stage.First? || stage.Second?) && stage.get != GetLock
  }

  predicate HoldsCondMutex(pc: Pc)
  {
    match pc
    case Adder(_, at) => at == Signal || at == CondUnlock
    case Handler(stage) => stage.Second? || stage.Wait? || stage.HandlerCondUnlock?
  }

  /** An adder that has put its request into the queue and not yet signalled. */
  function Unsignalled(pc: Pc): int
  {
    if pc.Adder? && (pc.at == Unlock || pc.at == CondLock || pc.at == Signal) then 1 else 0
  }

  /** A handler that sleeps, or that found the queue empty under `cond_mutex` and holds it
      until it sleeps. */
  predicate Committed(pc: Pc)
  {
    pc.Handler? && (pc.stage == Asleep || pc.stage == Wait || pc.stage == Second(GetUnlock(None)))
  }

  /** Copies of request `v` a handler has taken and not yet handled. */
  function InHand(v: int): Pc -> int
  {
    (pc: Pc) => if pc.Handler? && Carries(pc.stage) == Some(v) then 1 else 0
  }

  function Carries(stage: HandlerStage): Option<int>
  {
    match stage
    case First(GetUnlock(got)) => got
    case Second(GetUnlock(got)) => got
    case HandlerCondUnlock(got) => got
    case Handle(request) => Some(request)
    case _ => None
  }

  /** Copies of request `v` an adder has still to put into the queue. */
  function Owed(v: int): Pc -> int
  {
    (pc: Pc) => if pc.Adder? then Copies(v, ToAdd(pc.todo, pc.at)) else 0
  }

  function ToAdd(todo: seq<int>, at: AddStage): seq<int>
  {
    if at == Lock || at == Append || todo == [] then todo else todo[1..]
  }

  ghost predicate LockInv(s: State)
  {
    && (s.queueMutex.Some? ==> s.queueMutex.value < |s.pcs|)
    && (s.condMutex.Some? ==> s.condMutex.value < |s.pcs|)
    && (forall t :: 0 <= t < |s.pcs| ==> (HoldsQueueMutex(s.pcs[t]) <==> s.queueMutex == Some(t)))
    && (forall t :: 0 <= t < |s.pcs| ==> (HoldsCondMutex(s.pcs[t]) <==> s.condMutex == Some(t)))
    && (forall t :: 0 <= t < |s.pcs| ==> Busy(s.pcs[t]))
    && (exists t :: 0 <= t < |s.pcs| && s.pcs[t].Handler?)
  }

  /** An adder past its first step has a request in its hands. */
  predicate Busy(pc: Pc)
  {
    pc.Adder? && pc.todo == [] ==> pc.at == Lock
  }

  ghost predicate AllCommitted(s: State)
  {
    forall t :: 0 <= t < |s.pcs| && s.pcs[t].Handler? ==> Committed(s.pcs[t])
  }

  /** No lost wakeup. */
  ghost predicate WakeupInv(s: State)
  {
    AllCommitted(s) ==> |s.queue| <= Sum(Unsignalled, s.pcs)
  }

  ghost predicate Inv(s: State)
  {
    LockInv(s) && WakeupInv(s)
  }

  lemma InitInv(s: State)
    requires Init(s)
    ensures Inv(s)
  {
    SumNonNegative(Unsignalled, s.pcs);
  }

  /** A step of one thread, seen from that thread: each mutex is taken only when free and
      given back only by its holder, the queue grows only with a signal owed, and a handler
      commits only when it sees the queue empty. */
  ghost predicate Local(s: State, t: nat, s': State)
  {
    && t < |s.pcs| == |s'.pcs| && s'.pcs == s.pcs[t := s'.pcs[t]]
    && LocksMove(s, s.pcs[t], s', s'.pcs[t], t)
    && WakeupMoves(s, s.pcs[t], s', s'.pcs[t])
  }

  ghost predicate LocksMove(s: State, pc: Pc, s': State, pc': Pc, t: nat)
  {
    && pc.Handler? == pc'.Handler?
    && (Busy(pc) ==> Busy(pc'))
    && MutexMoves(s.queueMutex, HoldsQueueMutex(pc), s'.queueMutex, HoldsQueueMutex(pc'), t)
    && MutexMoves(s.condMutex, HoldsCondMutex(pc), s'.condMutex, HoldsCondMutex(pc'), t)
  }

  ghost predicate MutexMoves(m: Option<nat>, holds: bool, m': Option<nat>, holds': bool, t: nat)
  {
    || (m' == m && holds' == holds)
    || (m == None && m' == Some(t) && holds')
    || (m' == None && holds && !holds')
  }

  ghost predicate WakeupMoves(s: State, pc: Pc, s': State, pc': Pc)
  {
    && |s'.queue| - Unsignalled(pc') <= |s.queue| - Unsignalled(pc)
    && (Committed(pc') && !Committed(pc) ==> s'.queue == [])
  }

  lemma AdderIsLocal(s: State, t: nat)
    requires t < |s.pcs| && s.pcs[t].Adder? && s.pcs[t].todo != [] && s.pcs[t].at != Signal
    requires AdderNext(s, t, s.pcs[t].todo, s.pcs[t].at).Some?
    ensures Local(s, t, AdderNext(s, t, s.pcs[t].todo, s.pcs[t].at).value)
  {
  }

  lemma GetIsLocal(s: State, t: nat, first: bool, get: GetStage)
    requires t < |s.pcs| && s.pcs[t] == Getting(first, get) && GetNext(s, t, get, first).Some?
    ensures Local(s, t, GetNext(s, t, get, first).value)
  {
  }

  lemma HandlerIsLocal(s: State, t: nat)
    requires t < |s.pcs| && s.pcs[t].Handler? && HandlerNext(s, t, s.pcs[t].stage).Some?
    ensures Local(s, t, HandlerNext(s, t, s.pcs[t].stage).value)
  {
    match s.pcs[t].stage
    case First(get) =>
      if !get.GetUnlock? {
        GetIsLocal(s, t, true, get);
      }
    case Second(get) =>
      if !get.GetUnlock? {
        GetIsLocal(s, t, false, get);
      }
    case _ =>
  }

  lemma LocalKeepsInv(s: State, t: nat, s': State)
    requires Inv(s) && Local(s, t, s')
    ensures Inv(s')
  {
    SumUpdate(Unsignalled, s.pcs, t, s'.pcs[t]);
    SumNonNegative(Unsignalled, s'.pcs);
    var h :| 0 <= h < |s.pcs| && s.pcs[h].Handler?;
    assert s'.pcs[h].Handler?;
    if AllCommitted(s') && s'.queue != [] {
      forall i | 0 <= i < |s.pcs| && s.pcs[i].Handler?
        ensures Committed(s.pcs[i])
      {
        assert Committed(s'.pcs[i]);
      }
    }
  }

  /** The signal: made under `cond_mutex`, so no handler stands between its second look at
      the queue and its sleep, and a sleeper, if all are committed, is there to be woken. */
  lemma SignalKeepsInv(s: State, t: nat, woken: nat)
    requires Inv(s) && t < |s.pcs| && s.pcs[t].Adder? && s.pcs[t].at == Signal
    requires SignalOne(s, t, s.pcs[t].todo, woken).Some?
    ensures Inv(SignalOne(s, t, s.pcs[t].todo, woken).value)
  {
    var s' := SignalOne(s, t, s.pcs[t].todo, woken).value;
    var h :| 0 <= h < |s.pcs| && s.pcs[h].Handler?;
    assert s'.pcs[h].Handler?;
    if IsAsleep(s, woken) {
      assert !Committed(s'.pcs[woken]);
    } else {
      assert !IsAsleep(s, h);
      assert !Committed(s'.pcs[h]);
    }
  }

  lemma StepInv(s: State, e: Event)
    requires Inv(s) && Step(s, e).Some?
    ensures Inv(Step(s, e).value)
  {
    match e
    case SpuriousWakeup(t) =>
      LocalKeepsInv(s, t, Step(s, e).value);
    case Go(m) =>
      match s.pcs[m.t]
      case Adder(todo, at) =>
        if at == Signal {
          SignalKeepsInv(s, m.t, m.woken);
        } else {
          AdderIsLocal(s, m.t);
          LocalKeepsInv(s, m.t, Step(s, e).value);
        }
      case Handler(stage) =>
        HandlerIsLocal(s, m.t);
        LocalKeepsInv(s, m.t, Step(s, e).value);
  }

  // ---------------------------------------------------------------- the books

  /** FIFO order, and for a request number `v`: every copy taken is handled or in one
      handler's hands, and every copy is still owed by an adder or has been added. */
  ghost predicate Books(v: int, total: int, s: State)
  {
    && s.added == s.taken + s.queue
    && Copies(v, s.taken) == Copies(v, s.handled) + Sum(InHand(v), s.pcs)
    && Copies(v, s.added) + Sum(Owed(v), s.pcs) == total
  }

  ghost predicate BooksMove(v: int, s: State, pc: Pc, s': State, pc': Pc)
  {
    && (s.added == s.taken + s.queue ==> s'.added == s'.taken + s'.queue)
    && Copies(v, s'.taken) - Copies(v, s'.handled) - InHand(v)(pc')
       == Copies(v, s.taken) - Copies(v, s.handled) - InHand(v)(pc)
    && Copies(v, s'.added) + Owed(v)(pc') == Copies(v, s.added) + Owed(v)(pc)
  }

  lemma AdderBooks(s: State, t: nat, v: int)
    requires t < |s.pcs| && s.pcs[t].Adder? && s.pcs[t].todo != [] && s.pcs[t].at != Signal
    requires AdderNext(s, t, s.pcs[t].todo, s.pcs[t].at).Some?
    ensures var s' := AdderNext(s, t, s.pcs[t].todo, s.pcs[t].at).value;
            t < |s'.pcs| && BooksMove(v, s, s.pcs[t], s', s'.pcs[t])
  {
    var x := s.pcs[t].todo[0];
    assert Copies(v, s.pcs[t].todo) == Is(v)(x) + Copies(v, s.pcs[t].todo[1..]);
    if s.pcs[t].at == Append {
      SumAppend(Is(v), s.added, x);
      assert s.taken + (s.queue + [x]) == (s.taken + s.queue) + [x];
    }
  }

  lemma GetBooks(s: State, t: nat, first: bool, get: GetStage, v: int)
    requires t < |s.pcs| && s.pcs[t] == Getting(first, get) && GetNext(s, t, get, first).Some?
    ensures var s' := GetNext(s, t, get, first).value;
            t < |s'.pcs| && BooksMove(v, s, s.pcs[t], s', s'.pcs[t])
  {
    if s.queue != [] {
      SumAppend(Is(v), s.taken, s.queue[0]);
      assert (s.taken + [s.queue[0]]) + s.queue[1..] == s.taken + s.queue;
    }
  }

  lemma HandlerBooks(s: State, t: nat, v: int)
    requires t < |s.pcs| && s.pcs[t].Handler? && HandlerNext(s, t, s.pcs[t].stage).Some?
    ensures var s' := HandlerNext(s, t, s.pcs[t].stage).value;
            t < |s'.pcs| && BooksMove(v, s, s.pcs[t], s', s'.pcs[t])
  {
    match s.pcs[t].stage
    case First(get) =>
      if !get.GetUnlock? {
        GetBooks(s, t, true, get, v);
      }
    case Second(get) =>
      if !get.GetUnlock? {
        GetBooks(s, t, false, get, v);
      }
    case Handle(request) => SumAppend(Is(v), s.handled, request);
    case _ =>
  }

  lemma MoveKeepsBooks(v: int, total: int, s: State, t: nat, s': State)
    requires Books(v, total, s) && t < |s.pcs| == |s'.pcs| && s'.pcs == s.pcs[t := s'.pcs[t]]
    requires BooksMove(v, s, s.pcs[t], s', s'.pcs[t])
    ensures Books(v, total, s')
  {
    SumUpdate(InHand(v), s.pcs, t, s'.pcs[t]);
    SumUpdate(Owed(v), s.pcs, t, s'.pcs[t]);
  }

  lemma SignalKeepsBooks(v: int, total: int, s: State, t: nat, woken: nat)
    requires Books(v, total, s) && t < |s.pcs| && s.pcs[t].Adder? && s.pcs[t].at == Signal
    requires SignalOne(s, t, s.pcs[t].todo, woken).Some?
    ensures Books(v, total, SignalOne(s, t, s.pcs[t].todo, woken).value)
  {
    var mid := Goto(s, t, Adder(s.pcs[t].todo, CondUnlock));
    MoveKeepsBooks(v, total, s, t, mid);
    if IsAsleep(s, woken) {
      MoveKeepsBooks(v, total, mid, woken, Goto(mid, woken, Handler(Relock)));
    }
  }

  lemma StepBooks(v: int, total: int, s: State, e: Event)
    requires Books(v, total, s) && Step(s, e).Some?
    ensures Books(v, total, Step(s, e).value)
  {
    match e
    case SpuriousWakeup(t) =>
      MoveKeepsBooks(v, total, s, t, Step(s, e).value);
    case Go(m) =>
      match s.pcs[m.t]
      case Adder(todo, at) =>
        if at == Signal {
          SignalKeepsBooks(v, total, s, m.t, m.woken);
        } else {
          AdderBooks(s, m.t, v);
          AdderIsLocal(s, m.t);
          MoveKeepsBooks(v, total, s, m.t, Step(s, e).value);
        }
      case Handler(stage) =>
        HandlerBooks(s, m.t, v);
        HandlerIsLocal(s, m.t);
        MoveKeepsBooks(v, total, s, m.t, Step(s, e).value);
  }

  // ---------------------------------------------------------------- every run ends

  /** The steps a thread can take before it sleeps or finishes without meeting a request. */
  function Rank(pc: Pc): int
  {
    match pc
    case Adder(todo, at) =>
      25 * |todo| - (match at
                     case Lock => 0
                     case Append => 1
                     case Unlock => 11
                     case CondLock => 12
                     case Signal => 13
                     case CondUnlock => 24)
    case Handler(stage) =>
      match stage
      case First(get) => GetRank(get, 6, 10)
      case HandlerCondLock => 5
      case Second(get) => GetRank(get, 2, 11)
      case Wait => 1
      case Asleep => 0
      case Relock => 10
      case HandlerCondUnlock(got) => if got.Some? then 10 else 9
      case Handle(_) => 9
  }

  function GetRank(get: GetStage, empty: int, found: int): int
  {
    match get
    case GetLock => empty + 2
    case Take => empty + 1
    case GetUnlock(got) => if got.Some? then found else empty
  }

  /** A request in the queue pays for the extra round of the handler that takes it, a signal
      for the wakeup it causes. */
  function Work(s: State): int { 9 * |s.queue| + Sum(Rank, s.pcs) }

  ghost predicate Lowers(s: State, pc: Pc, s': State, pc': Pc)
  {
    9 * |s'.queue| + Rank(pc') < 9 * |s.queue| + Rank(pc)
  }

  lemma AdderLowers(s: State, t: nat)
    requires t < |s.pcs| && s.pcs[t].Adder? && s.pcs[t].todo != [] && s.pcs[t].at != Signal
    requires AdderNext(s, t, s.pcs[t].todo, s.pcs[t].at).Some?
    ensures var s' := AdderNext(s, t, s.pcs[t].todo, s.pcs[t].at).value;
            t < |s'.pcs| && Lowers(s, s.pcs[t], s', s'.pcs[t])
  {
  }

  lemma GetLowers(s: State, t: nat, first: bool, get: GetStage)
    requires t < |s.pcs| && s.pcs[t] == Getting(first, get) && GetNext(s, t, get, first).Some?
    ensures var s' := GetNext(s, t, get, first).value;
            t < |s'.pcs| && Lowers(s, s.pcs[t], s', s'.pcs[t])
  {
  }

  lemma HandlerLowers(s: State, t: nat)
    requires t < |s.pcs| && s.pcs[t].Handler? && HandlerNext(s, t, s.pcs[t].stage).Some?
    ensures var s' := HandlerNext(s, t, s.pcs[t].stage).value;
            t < |s'.pcs| && Lowers(s, s.pcs[t], s', s'.pcs[t])
  {
    match s.pcs[t].stage
    case First(get) =>
      if !get.GetUnlock? {
        GetLowers(s, t, true, get);
      }
    case Second(get) =>
      if !get.GetUnlock? {
        GetLowers(s, t, false, get);
      }
    case _ =>
  }

  lemma MoveLowersWork(s: State, m: Move)
    requires Inv(s) && Next(s, m).Some?
    ensures Work(Next(s, m).value) < Work(s)
  {
    var s' := Next(s, m).value;
    match s.pcs[m.t]
    case Adder(todo, at) =>
      if at == Signal {
        var mid := Goto(s, m.t, Adder(todo, CondUnlock));
        SumUpdate(Rank, s.pcs, m.t, mid.pcs[m.t]);
        if IsAsleep(s, m.woken) {
          SumUpdate(Rank, mid.pcs, m.woken, s'.pcs[m.woken]);
        }
      } else {
        AdderLowers(s, m.t);
        AdderIsLocal(s, m.t);
        SumUpdate(Rank, s.pcs, m.t, s'.pcs[m.t]);
      }
    case Handler(stage) =>
      HandlerLowers(s, m.t);
      HandlerIsLocal(s, m.t);
      SumUpdate(Rank, s.pcs, m.t, s'.pcs[m.t]);
  }

  ghost predicate Stuck(s: State)
  {
    forall m: Move :: Next(s, m).None?
  }

  ghost predicate Done(s: State)
  {
    && s.queue == []
    && forall t :: 0 <= t < |s.pcs| ==> s.pcs[t] == Handler(Asleep) || s.pcs[t] == Adder([], Lock)
  }

  /** Whoever holds the queue mutex can go on, and then so can whoever holds the other. */
  lemma HolderMoves(s: State)
    requires LockInv(s) && (s.queueMutex.Some? || s.condMutex.Some?)
    ensures exists m: Move :: Next(s, m).Some?
  {
    var t := if s.queueMutex.Some? then s.queueMutex.value else s.condMutex.value;
    var w :| if SomeoneAsleep(s) then IsAsleep(s, w) else w == 0;
    assert HoldsQueueMutex(s.pcs[t]) || HoldsCondMutex(s.pcs[t]);
    assert Next(s, Move(t, w)).Some?;
  }

  lemma StuckIsDone(s: State)
    requires Inv(s) && Stuck(s)
    ensures Done(s)
  {
    if s.queueMutex.Some? || s.condMutex.Some? {
      HolderMoves(s);
    }
    forall t | 0 <= t < |s.pcs|
      ensures s.pcs[t] == Handler(Asleep) || s.pcs[t] == Adder([], Lock)
    {
      assert Next(s, Move(t, 0)).None?;
    }
    SumZero(Unsignalled, s.pcs);
  }

  /** No lost wakeup, in every state of every run, spurious wakeups included: when all the
      handlers sleep, each queued request has an adder that has yet to signal. */
  lemma {:induction false} NoLostWakeup(s: State, schedule: seq<Event>)
    requires Init(s) && Exec(Step, s, schedule).Some?
    ensures var end := Exec(Step, s, schedule).value;
            (forall t :: 0 <= t < |end.pcs| && end.pcs[t].Handler? ==> end.pcs[t].stage == Asleep)
            ==> |end.queue| <= Sum(Unsignalled, end.pcs)
  {
    InitInv(s);
    forall x, e | Inv(x) && Step(x, e).Some?
      ensures Inv(Step(x, e).value)
    {
      StepInv(x, e);
    }
    Invariant(Step, Inv, s, schedule);
  }

  /** In every run requests leave the queue in the order in which they entered it, and a copy
      of a request taken is handled once or in the hands of one handler. */
  lemma {:induction false} FifoAndConserved(s: State, schedule: seq<Event>, v: int)
    requires Init(s) && Exec(Step, s, schedule).Some?
    ensures var end := Exec(Step, s, schedule).value;
            && end.added == end.taken + end.queue
            && Copies(v, end.taken) == Copies(v, end.handled) + Sum(InHand(v), end.pcs)
            && Copies(v, end.added) + Sum(Owed(v), end.pcs) == Sum(Owed(v), s.pcs)
  {
    SumZero(InHand(v), s.pcs);
    var total := Sum(Owed(v), s.pcs);
    var inv := (x: State) => Books(v, total, x);
    forall x, e | inv(x) && Step(x, e).Some?
      ensures inv(Step(x, e).value)
    {
      StepBooks(v, total, x, e);
    }
    Invariant(Step, inv, s, schedule);
  }

  lemma DoneHoldsNothing(s: State, v: int)
    requires Done(s)
    ensures Sum(InHand(v), s.pcs) == 0 && Sum(Owed(v), s.pcs) == 0
  {
    SumZero(InHand(v), s.pcs);
    SumZero(Owed(v), s.pcs);
  }

  lemma {:induction false} DoneHasServed(s: State, schedule: seq<Event>, v: int)
    requires Init(s) && Exec(Step, s, schedule).Some? && Done(Exec(Step, s, schedule).value)
    ensures var end := Exec(Step, s, schedule).value;
            end.taken == end.added && Copies(v, end.handled) == Sum(Owed(v), s.pcs)
  {
    var end := Exec(Step, s, schedule).value;
    FifoAndConserved(s, schedule, v);
    DoneHoldsNothing(end, v);
  }

  lemma WorkIsNatural(s: State)
    requires LockInv(s)
    ensures Work(s) >= 0
  {
    SumNonNegative(Rank, s.pcs);
  }

  lemma {:induction false} EveryRunIsFinite(s: State, moves: seq<Move>)
    requires Init(s) && Exec(Next, s, moves).Some?
    ensures |moves| <= Work(s)
    ensures Inv(Exec(Next, s, moves).value)
  {
    InitInv(s);
    forall x, m | Inv(x) && Next(x, m).Some?
      ensures Inv(Next(x, m).value) && Work(Next(x, m).value) < Work(x)
    {
      assert Step(x, Go(m)) == Next(x, m);
      StepInv(x, Go(m));
      MoveLowersWork(x, m);
    }
    Bounded(Next, Inv, Work, s, moves);
    Invariant(Next, Inv, s, moves);
    WorkIsNatural(Exec(Next, s, moves).value);
  }

  /** Without spurious wakeups every run is finite, and where it ends the queue is empty,
      every adder has finished, every handler sleeps, and each request that the adders
      started with has been handled exactly as often as it was to be added. */
  lemma {:induction false} EveryRunServesEverything(s: State, moves: seq<Move>)
    requires Init(s) && Exec(Next, s, moves).Some?
    ensures var end := Exec(Next, s, moves).value;
            && |moves| <= Work(s)
            && (Stuck(end) ==>
                  Done(end) && forall v :: Copies(v, end.handled) == Sum(Owed(v), s.pcs))
  {
    EveryRunIsFinite(s, moves);
    var end := Exec(Next, s, moves).value;
    if Stuck(end) {
      StuckIsDone(end);
      var event := (m: Move) => Go(m);
      Relabelled(Step, Next, event, s, moves);
      forall v
        ensures Copies(v, end.handled) == Sum(Owed(v), s.pcs)
      {
        DoneHasServed(s, Events(event, moves), v);
      }
    }
  }
}
