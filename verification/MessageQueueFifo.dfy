/** What the message queue is for: every interleaving of puts and gets is a run of a bounded
  FIFO of byte strings.
 */
module MessageQueueFifo {
  import opened Runs
  import opened Tally
  import opened Bytes
  import opened MessageRing
  import opened MessageQueue

  /** A bounded FIFO of byte strings. */
  datatype FifoOp = Stutter | Accept(msg: seq<Byte>) | Deliver(delivery: Delivery)

  ghost predicate FifoNext(capacity: nat, q: seq<seq<Byte>>, op: FifoOp, q': seq<seq<Byte>>)
  {
    match op
    case Stutter => q' == q
    case Accept(msg) => |q| < capacity && q' == q + [msg]
    case Deliver(d) => q != [] && q' == q[1..] && Delivers(d, q[0])
  }

  /** The queue as a caller sees it: what was put and not yet delivered. */
  ghost function Queued(s: State): seq<seq<Byte>>
    requires |s.log.gets| <= |s.log.puts|
  {
    s.log.puts[|s.log.gets|..]
  }

  /** The FIFO operation an event is: the critical section of a call that sees no drop. */
  function Linearise(s: State, e: Event): FifoOp
    requires e.t < |s.pcs|
  {
    var pc := s.pcs[e.t];
    if !e.Advance? || s.dropped then Stutter
    else if pc.Put? && pc.at == Body then Accept(pc.msg)
    else if pc.Get? && pc.at == Body then Deliver(Delivery(pc.bufsize, Front(s.ring, pc.bufsize), |s.log.puts|))
    else Stutter
  }

  lemma PutAccepts(s: State, t: nat)
    requires Inv(s) && !s.dropped && t < |s.pcs| && s.pcs[t].Put? && s.pcs[t].at == Body
    ensures FifoNext(Capacity(s.ring), Queued(s), Accept(s.pcs[t].msg), Queued(CallStep(s, t).value))
  {
    CriticalSectionsAreSafe(s, t);
    assert (s.log.puts + [s.pcs[t].msg])[|s.log.gets|..] == Queued(s) + [s.pcs[t].msg];
  }

  lemma {:induction false} GetDelivers(s: State, t: nat)
    requires Inv(s) && !s.dropped && t < |s.pcs| && s.pcs[t].Get? && s.pcs[t].at == Body
    ensures |CallStep(s, t).value.log.gets| <= |s.log.puts|
    ensures FifoNext(Capacity(s.ring), Queued(s), Linearise(s, Advance(t)), Queued(CallStep(s, t).value))
  {
    var q := Queued(s);
    CriticalSectionsAreSafe(s, t);
    DequeueDropsFirst(s.ring, q, s.pcs[t].bufsize);
    assert s.log.puts[|s.log.gets| + 1..] == q[1..];
  }

  /** Every interleaving refines the sequential FIFO; once dropped it only stutters. */
  lemma RefinesFifo(s: State, e: Event)
    requires Inv(s) && Step(s, e).Some?
    ensures e.t < |s.pcs| && Inv(Step(s, e).value)
    ensures FifoNext(Capacity(s.ring), Queued(s), Linearise(s, e), Queued(Step(s, e).value))
    ensures |Queued(s)| == s.ring.count
  {
    StepIsLocal(s, e);
    StepInv(s, e);
    match Linearise(s, e)
    case Accept(_) => PutAccepts(s, e.t);
    case Deliver(_) => GetDelivers(s, e.t);
    case Stutter =>
  }

  function Min(a: nat, b: nat): nat { if a < b then a else b }

  lemma {:induction false} StrNLenIsMin(s: seq<Byte>, n: nat)
    ensures StrNLen(s, n) == Min(StrNLen(s, |s|), n)
  {
    if n != 0 && s != [] && s[0] != 0 {
      StrNLenIsMin(s[1..], n - 1);
    }
  }

  /** In every run the k-th successful get delivers the first min(strlen, 80, bufsize - 1)
      bytes of the k-th successful put; with a bufsize of 0, the first min(strlen, 80). */
  lemma {:induction false} GetsFollowPuts(s: State, schedule: seq<Event>, k: nat)
    requires Init(s) && Exec(Step, s, schedule).Some?
    requires k < |Exec(Step, s, schedule).value.log.gets|
    requires Exec(Step, s, schedule).value.log.gets[k].bufsize < SIZE_T_RANGE
    ensures var end := Exec(Step, s, schedule).value;
            && k < |end.log.puts|
            && var msg, bufsize := end.log.puts[k], end.log.gets[k].bufsize;
               var kept := Min(StrNLen(msg, |msg|), MAX_MSG_LEN - 1);
               end.log.gets[k].text == msg[..if bufsize == 0 then kept else Min(kept, bufsize - 1)]
  {
    Reachable(s, schedule);
    var end := Exec(Step, s, schedule).value;
    var msg := end.log.puts[k];
    assert Delivers(end.log.gets[k], msg);
    StrNLenIsMin(msg, MAX_MSG_LEN - 1);
    CopyFits(|Kept(msg)|, end.log.gets[k].bufsize);
  }

  // ---------------------------------------------------------------- what calls return

  /** What a call has moved, what it returns for it, and its place in the history. */
  datatype Moved =
    | Nothing
    | PutMoved(msg: seq<Byte>, ret: nat, entry: nat)
    | GetMoved(bufsize: nat, ret: nat, entry: nat)

  function MovedBy(pc: Pc): Moved
  {
    match pc
    case Put(msg, at) => if AfterBody(at) then PutMoved(msg, at.ret, at.entry) else Nothing
    case Get(bufsize, at) => if AfterBody(at) then GetMoved(bufsize, at.ret, at.entry) else Nothing
    case _ => Nothing
  }

  function MovedIn(r: Return): Moved
  {
    match r.entry
    case None => Nothing
    case Some(k) =>
      match r.call
      case PutCall(msg) => PutMoved(msg, r.ret, k)
      case GetCall(bufsize) => GetMoved(bufsize, r.ret, k)
      case DropCall => Nothing
  }

  /** A put returns the length of what was kept of its own message, which is the one enqueued
      at its entry; a get returns the length of the text delivered at its entry. */
  ghost predicate MovedOk(log: History, m: Moved)
  {
    match m
    case Nothing => true
    case PutMoved(msg, ret, k) => k < |log.puts| && log.puts[k] == msg && ret == |Kept(msg)|
    case GetMoved(bufsize, ret, k) => k < |log.gets| && log.gets[k].bufsize == bufsize && ret == |log.gets[k].text|
  }

  ghost predicate ReturnOk(log: History, r: Return)
  {
    MovedOk(log, MovedIn(r)) && (r.entry.None? ==> r.ret == 0) && (r.call.DropCall? ==> r.entry.None?)
  }

  /** What the last call of thread `t` returned. */
  function LastRet(t: nat, returned: seq<Return>): nat
  {
    if returned == [] then 0
    else if returned[|returned| - 1].t == t then returned[|returned| - 1].ret
    else LastRet(t, returned[..|returned| - 1])
  }

  ghost predicate ReturnInv(s: State)
  {
    && (forall t :: 0 <= t < |s.pcs| ==> MovedOk(s.log, MovedBy(s.pcs[t])))
    && (forall i :: 0 <= i < |s.log.returned| ==> ReturnOk(s.log, s.log.returned[i]))
    && (forall t :: 0 <= t < |s.pcs| && s.pcs[t].Idle? ==> s.pcs[t].ret == LastRet(t, s.log.returned))
  }

  predicate IsPutOf(k: nat, m: Moved) { m.PutMoved? && m.entry == k }

  predicate IsGetOf(k: nat, m: Moved) { m.GetMoved? && m.entry == k }

  function PutInFlight(k: nat): Pc -> int { pc => if IsPutOf(k, MovedBy(pc)) then 1 else 0 }

  function PutReturned(k: nat): Return -> int { r => if IsPutOf(k, MovedIn(r)) then 1 else 0 }

  function GetInFlight(k: nat): Pc -> int { pc => if IsGetOf(k, MovedBy(pc)) then 1 else 0 }

  function GetReturned(k: nat): Return -> int { r => if IsGetOf(k, MovedIn(r)) then 1 else 0 }

  /** Every message enqueued and every text delivered belongs to exactly one call, on its way
      out or returned. */
  ghost predicate OneCallEach(k: nat, s: State)
  {
    && Sum(PutInFlight(k), s.pcs) + Sum(PutReturned(k), s.log.returned) == (if k < |s.log.puts| then 1 else 0)
    && Sum(GetInFlight(k), s.pcs) + Sum(GetReturned(k), s.log.returned) == (if k < |s.log.gets| then 1 else 0)
  }

  ghost predicate SameLog(log: History, log': History)
  {
    log'.puts == log.puts && log'.gets == log.gets && log'.returned == log.returned && log'.began == log.began
  }

  /** Thread `t` begins a call, ... */
  ghost predicate BeginsIt(s: State, t: nat, pc: Pc, s': State, pc': Pc)
  {
    && pc.Idle? && !pc'.Idle? && MovedBy(pc') == Nothing
    && SameLog(s.log.(began := s.log.began[t := |s.log.returned|]), s'.log)
  }

  /** ... or goes on without moving anything, ... */
  ghost predicate GoesOn(s: State, pc: Pc, s': State, pc': Pc)
  {
    SameLog(s.log, s'.log) && MovedBy(pc') == MovedBy(pc) && !pc.Idle? && !pc'.Idle?
  }

  /** ... or returns, with what it has moved, ... */
  ghost predicate ReturnsIt(s: State, t: nat, pc: Pc, s': State, pc': Pc)
  {
    && s'.log.returned != [] && SameLog(s.log.(returned := s'.log.returned), s'.log) && pc'.Idle?
    && var r := s'.log.returned[|s'.log.returned| - 1];
       && s'.log.returned == s.log.returned + [r]
       && r == Return(t, CallOf(pc), pc'.ret, r.entry, Began(s.log, t)) && MovedIn(r) == MovedBy(pc)
       && (r.entry.None? ==> r.ret == 0) && (r.call.DropCall? ==> r.entry.None?)
  }

  /** ... or enqueues its own message or delivers its own text. */
  ghost predicate MovesIt(s: State, pc: Pc, s': State, pc': Pc)
  {
    && MovedBy(pc) == Nothing
    && match MovedBy(pc')
       case Nothing => false
       case PutMoved(msg, ret, k) =>
         && CallOf(pc) == PutCall(msg) && ret == |Kept(msg)| && k == |s.log.puts|
         && s'.log.puts == s.log.puts + [msg] && SameLog(s.log, s'.log.(puts := s.log.puts))
       case GetMoved(bufsize, ret, k) =>
         && CallOf(pc) == GetCall(bufsize) && k == |s.log.gets| && |s'.log.gets| == k + 1
         && s'.log.gets[k].bufsize == bufsize && ret == |s'.log.gets[k].text|
         && s'.log.gets[k].seen == |s.log.puts|
         && s'.log.gets == s.log.gets + [s'.log.gets[k]] && SameLog(s.log, s'.log.(gets := s.log.gets))
  }

  ghost predicate MovesOwn(s: State, t: nat, s': State)
  {
    && t < |s.pcs| && |s'.pcs| == |s.pcs| && s'.pcs == s.pcs[t := s'.pcs[t]]
    && (|| BeginsIt(s, t, s.pcs[t], s', s'.pcs[t]) || GoesOn(s, s.pcs[t], s', s'.pcs[t])
        || ReturnsIt(s, t, s.pcs[t], s', s'.pcs[t]) || MovesIt(s, s.pcs[t], s', s'.pcs[t]))
  }

  lemma BodyMovesOwn(s: State, t: nat)
    requires t < |s.pcs| && (s.pcs[t].Put? || s.pcs[t].Get?) && s.pcs[t].at == Body
    ensures MovesOwn(s, t, CallStep(s, t).value)
  {
  }

  lemma PutMovesOwn(s: State, t: nat)
    requires t < |s.pcs| && s.pcs[t].Put? && s.pcs[t].at != Body && CallStep(s, t).Some?
    ensures MovesOwn(s, t, CallStep(s, t).value)
  {
  }

  lemma GetMovesOwn(s: State, t: nat)
    requires t < |s.pcs| && s.pcs[t].Get? && s.pcs[t].at != Body && CallStep(s, t).Some?
    ensures MovesOwn(s, t, CallStep(s, t).value)
  {
  }

  lemma PostMovesOwn(s: State, t: nat)
    requires t < |s.pcs| && s.pcs[t].Drop? && Posting(s.pcs[t].stage)
    ensures CallStep(s, t).Some? && MovesOwn(s, t, CallStep(s, t).value)
  {
  }

  lemma DropMovesOwn(s: State, t: nat)
    requires t < |s.pcs| && s.pcs[t].Drop? && !Posting(s.pcs[t].stage) && CallStep(s, t).Some?
    ensures MovesOwn(s, t, CallStep(s, t).value)
  {
  }

  lemma StepMovesOwn(s: State, e: Event)
    requires Step(s, e).Some?
    ensures MovesOwn(s, e.t, Step(s, e).value)
  {
    if e.Advance? {
      match s.pcs[e.t]
      case Put(_, Body) | Get(_, Body) => BodyMovesOwn(s, e.t);
      case Put(_, _) => PutMovesOwn(s, e.t);
      case Get(_, _) => GetMovesOwn(s, e.t);
      case Drop(stage) =>
        if Posting(stage) {
          PostMovesOwn(s, e.t);
        } else {
          DropMovesOwn(s, e.t);
        }
    }
  }

  lemma MoveKeepsReturns(s: State, t: nat, s': State)
    requires ReturnInv(s) && MovesOwn(s, t, s')
    ensures ReturnInv(s')
  {
    if ReturnsIt(s, t, s.pcs[t], s', s'.pcs[t]) {
      assert s'.log.returned[..|s.log.returned|] == s.log.returned;
    }
  }

  lemma MoveKeepsOwners(k: nat, s: State, t: nat, s': State)
    requires OneCallEach(k, s) && MovesOwn(s, t, s')
    ensures OneCallEach(k, s')
  {
    SumUpdate(PutInFlight(k), s.pcs, t, s'.pcs[t]);
    SumUpdate(GetInFlight(k), s.pcs, t, s'.pcs[t]);
    if ReturnsIt(s, t, s.pcs[t], s', s'.pcs[t]) {
      var r := s'.log.returned[|s'.log.returned| - 1];
      SumAppend(PutReturned(k), s.log.returned, r);
      SumAppend(GetReturned(k), s.log.returned, r);
    }
  }

  /** In every run, every message enqueued is that of exactly one put, and every text delivered
      that of exactly one get, which is still on its way out or has returned. */
  lemma {:induction false} EveryEntryHasOneCall(s: State, schedule: seq<Event>, k: nat)
    requires Init(s) && Exec(Step, s, schedule).Some?
    ensures OneCallEach(k, Exec(Step, s, schedule).value)
  {
    SumZero(PutInFlight(k), s.pcs);
    SumZero(GetInFlight(k), s.pcs);
    var inv := (x: State) => OneCallEach(k, x);
    forall x, e | inv(x) && Step(x, e).Some?
      ensures inv(Step(x, e).value)
    {
      StepMovesOwn(x, e);
      MoveKeepsOwners(k, x, e.t, Step(x, e).value);
    }
    Invariant(Step, inv, s, schedule);
  }

  lemma EntriesDiffer(s: State, k: nat, i: nat, j: nat)
    requires OneCallEach(k, s) && i < j < |s.log.returned|
    ensures !(IsPutOf(k, MovedIn(s.log.returned[i])) && IsPutOf(k, MovedIn(s.log.returned[j])))
    ensures !(IsGetOf(k, MovedIn(s.log.returned[i])) && IsGetOf(k, MovedIn(s.log.returned[j])))
  {
    SumNonNegative(PutInFlight(k), s.pcs);
    SumNonNegative(GetInFlight(k), s.pcs);
    SumBoundTwo(PutReturned(k), s.log.returned, i, j);
    SumBoundTwo(GetReturned(k), s.log.returned, i, j);
  }

  /** In every run, each put that has returned returned the length of what was kept of its own
      message, enqueued at its entry, and each get that of the text delivered to it at its
      entry, or 0 if it moved nothing; no two calls share an entry; and an idle thread has the
      value that its last call returned. */
  lemma {:induction false} CallsReturnWhatTheyMoved(s: State, schedule: seq<Event>)
    requires Init(s) && Exec(Step, s, schedule).Some?
    ensures var end := Exec(Step, s, schedule).value;
            && (forall i :: 0 <= i < |end.log.returned| ==> ReturnOk(end.log, end.log.returned[i]))
            && (forall i, j :: 0 <= i < j < |end.log.returned| && end.log.returned[i].entry.Some?
                               && end.log.returned[i].entry == end.log.returned[j].entry ==>
                                 end.log.returned[i].call.PutCall? != end.log.returned[j].call.PutCall?)
            && (forall t :: 0 <= t < |end.pcs| && end.pcs[t].Idle? ==> end.pcs[t].ret == LastRet(t, end.log.returned))
  {
    forall x, e | ReturnInv(x) && Step(x, e).Some?
      ensures ReturnInv(Step(x, e).value)
    {
      StepMovesOwn(x, e);
      MoveKeepsReturns(x, e.t, Step(x, e).value);
    }
    Invariant(Step, ReturnInv, s, schedule);
    var end := Exec(Step, s, schedule).value;
    forall i, j | 0 <= i < j < |end.log.returned| && end.log.returned[i].entry.Some?
                  && end.log.returned[i].entry == end.log.returned[j].entry
      ensures end.log.returned[i].call.PutCall? != end.log.returned[j].call.PutCall?
    {
      assert ReturnOk(end.log, end.log.returned[i]) && ReturnOk(end.log, end.log.returned[j]);
      EveryEntryHasOneCall(s, schedule, end.log.returned[i].entry.value);
      EntriesDiffer(end, end.log.returned[i].entry.value, i, j);
    }
  }

  // ---------------------------------------------------------------- calls that move nothing

  predicate Aborting(pc: Pc)
  {
    (pc.Put? || pc.Get?) && (pc.at.AbortUnlock? || pc.at.AbortPost?)
  }

  /** A put or a get that returned without having moved anything. */
  predicate MovedNothing(r: Return)
  {
    !r.call.DropCall? && r.entry.None?
  }

  /** Nobody gives up on a queue that is not dropped, and no call has come to nothing. */
  ghost predicate NothingWasted(s: State)
  {
    !s.dropped ==>
      && (forall t :: 0 <= t < |s.pcs| ==> !Aborting(s.pcs[t]))
      && forall i :: 0 <= i < |s.log.returned| ==> !MovedNothing(s.log.returned[i])
  }

  lemma PutWastesNothing(s: State, t: nat)
    requires t < |s.pcs| && s.pcs[t].Put? && !s.dropped && !Aborting(s.pcs[t]) && CallStep(s, t).Some?
    ensures var s' := CallStep(s, t).value;
            && t < |s'.pcs| && !Aborting(s'.pcs[t])
            && forall r :: r in s'.log.returned && r !in s.log.returned ==> !MovedNothing(r)
  {
  }

  lemma GetWastesNothing(s: State, t: nat)
    requires t < |s.pcs| && s.pcs[t].Get? && !s.dropped && !Aborting(s.pcs[t]) && CallStep(s, t).Some?
    ensures var s' := CallStep(s, t).value;
            && t < |s'.pcs| && !Aborting(s'.pcs[t])
            && forall r :: r in s'.log.returned && r !in s.log.returned ==> !MovedNothing(r)
  {
  }

  lemma DropWastesNothing(s: State, t: nat)
    requires t < |s.pcs| && s.pcs[t].Drop? && CallStep(s, t).Some?
    ensures var s' := CallStep(s, t).value;
            && t < |s'.pcs| && !Aborting(s'.pcs[t])
            && forall r :: r in s'.log.returned && r !in s.log.returned ==> !MovedNothing(r)
  {
    StepIsLocal(s, Advance(t));
  }

  lemma StepWastesNothing(s: State, e: Event)
    requires NothingWasted(s) && !e.WaitFails? && Step(s, e).Some?
    ensures NothingWasted(Step(s, e).value)
  {
    var s' := Step(s, e).value;
    StepIsLocal(s, e);
    StepMovesOwn(s, e);
    if !s'.dropped {
      if e.Advance? {
        match s.pcs[e.t]
        case Put(_, _) => PutWastesNothing(s, e.t);
        case Get(_, _) => GetWastesNothing(s, e.t);
        case Drop(_) => DropWastesNothing(s, e.t);
      }
      forall i | 0 <= i < |s'.log.returned|
        ensures !MovedNothing(s'.log.returned[i])
      {
        if s'.log.returned[i] in s.log.returned {
          var j :| 0 <= j < |s.log.returned| && s.log.returned[j] == s'.log.returned[i];
        }
      }
    }
  }

  lemma {:induction false} RunWastesNothing(s: State, schedule: seq<Event>)
    requires NothingWasted(s) && Exec(Step, s, schedule).Some?
    requires forall i :: 0 <= i < |schedule| ==> !schedule[i].WaitFails?
    ensures NothingWasted(Exec(Step, s, schedule).value)
    decreases |schedule|
  {
    if schedule != [] {
      StepWastesNothing(s, schedule[0]);
      RunWastesNothing(Step(s, schedule[0]).value, schedule[1..]);
    }
  }

  /** In every run without interrupted waits and until the drop, every put and every get that has
      returned has moved its message: only a drop makes a call return 0 for nothing. */
  lemma {:induction false} CallsSucceedBeforeDrop(s: State, schedule: seq<Event>)
    requires Init(s) && Exec(Step, s, schedule).Some? && !Exec(Step, s, schedule).value.dropped
    requires forall i :: 0 <= i < |schedule| ==> !schedule[i].WaitFails?
    ensures var log := Exec(Step, s, schedule).value.log;
            forall i :: 0 <= i < |log.returned| ==> log.returned[i].entry.None? ==> log.returned[i].call.DropCall?
  {
    RunWastesNothing(s, schedule);
    var log := Exec(Step, s, schedule).value.log;
    forall i | 0 <= i < |log.returned| && log.returned[i].entry.None?
      ensures log.returned[i].call.DropCall?
    {
      assert !MovedNothing(log.returned[i]);
    }
  }

  /** A thread between two calls can make any call, and a wait can be interrupted. */
  lemma AnyThreadMayCall(s: State, t: nat, msg: seq<Byte>, bufsize: nat)
    requires t < |s.pcs|
    ensures Step(s, CallPut(t, msg)).Some? <==> s.pcs[t].Idle?
    ensures Step(s, CallGet(t, bufsize)).Some? <==> s.pcs[t].Idle?
    ensures Step(s, CallDrop(t)).Some? <==> s.pcs[t].Idle?
    ensures Step(s, WaitFails(t)).Some? <==> Waiting(s.pcs[t])
  {
  }
}
