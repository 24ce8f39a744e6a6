/** `pr13task3-2.c`: philosophers who try both forks under one mutex and otherwise sleep until
  someone who has eaten broadcasts. For any number of seats from two up.
 */
module TrylockPhilosophers {
  import opened RoundTable
  import opened Runs
  import opened Tally

  datatype Pc =
    | Thinking | WantMutex
    | TryLeft | TryRight | DropLeft | CondWait | Asleep | Woken
    | Leave  // holds both forks, about to unlock forks_mutex
    | Eating | WantToPut | PutLeft | PutRight | Broadcast | LastUnlock

  datatype State = State(forks: seq<Option<nat>>, mutex: Option<nat>, pcs: seq<Pc>)

  datatype Event = Go(t: nat) | SpuriousWakeup(t: nat)

  predicate Table(s: State)
  {
    2 <= |s.forks| == |s.pcs|
  }

  ghost predicate Init(s: State)
  {
    && Table(s) && s.mutex == None
    && (forall f :: 0 <= f < |s.forks| ==> s.forks[f] == None)
    && forall p :: 0 <= p < |s.pcs| ==> s.pcs[p] == Thinking
  }

  function Goto(s: State, p: nat, pc: Pc): State
    requires p < |s.pcs|
  {
    s.(pcs := s.pcs[p := pc])
  }

  function Step(s: State, e: Event): Option<State>
  {
    match e
    case Go(p) => Next(s, p)
    case SpuriousWakeup(p) =>
      if Table(s) && p < |s.pcs| && s.pcs[p] == Asleep then Some(Goto(s, p, Woken)) else None
  }

  function Next(s: State, p: nat): Option<State>
  {
    if !Table(s) || p >= |s.pcs| then None
    else
      var left, right := p, Right(|s.forks|, p);
      match s.pcs[p]
      case Thinking => Some(Goto(s, p, WantMutex))
      case WantMutex => Acquire(s, p, TryLeft)
      case TryLeft =>
        if s.forks[left].None? then Some(Goto(s, p, TryRight).(forks := s.forks[left := Some(p)]))
        else Some(Goto(s, p, CondWait))
      case TryRight =>
        if s.forks[right].None? then Some(Goto(s, p, Leave).(forks := s.forks[right := Some(p)]))
        else Some(Goto(s, p, DropLeft))
      case DropLeft => Some(Goto(s, p, CondWait).(forks := s.forks[left := None]))
      case CondWait => Some(Goto(s, p, Asleep).(mutex := None))
      case Asleep => None
      case Woken => Acquire(s, p, TryLeft)
      case Leave => Some(Goto(s, p, Eating).(mutex := None))
      case Eating => Some(Goto(s, p, WantToPut))
      case WantToPut => Acquire(s, p, PutLeft)
      case PutLeft => Some(Goto(s, p, PutRight).(forks := s.forks[left := None]))
      case PutRight => Some(Goto(s, p, Broadcast).(forks := s.forks[right := None]))
      case Broadcast => Some(s.(pcs := WakeAll(s.pcs)[p := LastUnlock]))
      case LastUnlock => Some(Goto(s, p, Thinking).(mutex := None))
  }

  function Acquire(s: State, p: nat, pc: Pc): Option<State>
    requires p < |s.pcs|
  {
    if s.mutex.None? then Some(Goto(s, p, pc).(mutex := Some(p))) else None
  }

  /** `pthread_cond_broadcast`. */
  function WakeAll(pcs: seq<Pc>): (woken: seq<Pc>)
    ensures |woken| == |pcs|
    ensures forall i :: 0 <= i < |pcs| ==> woken[i] == if pcs[i] == Asleep then Woken else pcs[i]
  {
    seq(|pcs|, i requires 0 <= i < |pcs| => if pcs[i] == Asleep then Woken else pcs[i])
  }

  // ---------------------------------------------------------------- invariants

  predicate HoldsMutex(pc: Pc)
  {
    match pc
    case TryLeft | TryRight | DropLeft | CondWait | Leave => true
    case PutLeft | PutRight | Broadcast | LastUnlock => true
    case _ => false
  }

  predicate HasBoth(pc: Pc) { pc == Leave || pc == Eating || pc == WantToPut || pc == PutLeft }

  predicate HasLeft(pc: Pc) { HasBoth(pc) || pc == TryRight || pc == DropLeft }

  predicate HasRight(pc: Pc) { HasBoth(pc) || pc == PutRight }

  ghost predicate LockInv(s: State)
  {
    && Table(s)
    && (s.mutex.Some? ==> s.mutex.value < |s.pcs|)
    && forall p :: 0 <= p < |s.pcs| ==> (HoldsMutex(s.pcs[p]) <==> s.mutex == Some(p))
  }

  ghost predicate ForkInv(s: State)
    requires Table(s)
  {
    && (forall f :: 0 <= f < |s.forks| && s.forks[f].Some? ==> OwnedBy(s, f, s.forks[f].value))
    && forall p :: 0 <= p < |s.pcs| ==> Owns(s, p)
  }

  ghost predicate OwnedBy(s: State, f: nat, p: nat)
    requires Table(s)
  {
    && p < |s.pcs|
    && ((f == p && HasLeft(s.pcs[p])) || (f == Right(|s.forks|, p) && HasRight(s.pcs[p])))
  }

  ghost predicate Owns(s: State, p: nat)
    requires Table(s) && p < |s.pcs|
  {
    && (HasLeft(s.pcs[p]) ==> s.forks[p] == Some(p))
    && (HasRight(s.pcs[p]) ==> s.forks[Right(|s.forks|, p)] == Some(p))
  }

  /** Philosophers who have given up and wait, or are about to, for someone to finish. */
  predicate Waits(pc: Pc) { pc == Asleep || pc == CondWait || pc == DropLeft }

  /** A fork of `p` is held by someone else who has both forks for a meal. */
  ghost predicate Kept(s: State, p: nat, f: nat)
    requires Table(s) && f < |s.forks|
  {
    s.forks[f].Some? && s.forks[f].value != p && s.forks[f].value < |s.pcs| && HasBoth(s.pcs[s.forks[f].value])
  }

  /** Someone has put a fork down and is about to broadcast. */
  ghost predicate BroadcastDue(s: State)
  {
    s.mutex.Some? && s.mutex.value < |s.pcs| &&
    (s.pcs[s.mutex.value] == PutRight || s.pcs[s.mutex.value] == Broadcast)
  }

  ghost predicate Excused(s: State, p: nat)
    requires Table(s) && p < |s.pcs|
  {
    BroadcastDue(s) || Kept(s, p, p) || Kept(s, p, Right(|s.forks|, p))
  }

  ghost predicate WakeupInv(s: State)
    requires Table(s)
  {
    forall p :: 0 <= p < |s.pcs| && Waits(s.pcs[p]) ==> Excused(s, p)
  }

  ghost predicate Inv(s: State)
  {
    LockInv(s) && ForkInv(s) && WakeupInv(s)
  }

  lemma StepLockInv(s: State, e: Event)
    requires LockInv(s) && Step(s, e).Some?
    ensures LockInv(Step(s, e).value)
  {
  }

  /** A step other than a broadcast moves one thread, which takes a free fork, puts down one
      of its own, or leaves the forks alone. */
  ghost predicate ForksMove(s: State, t: nat, s': State)
    requires Table(s) && t < |s.pcs|
  {
    && |s'.pcs| == |s.pcs| && s'.pcs == s.pcs[t := s'.pcs[t]]
    && var left, right := t, Right(|s.forks|, t);
       var pc, pc' := s.pcs[t], s'.pcs[t];
       || (s'.forks == s.forks && HasLeft(pc') == HasLeft(pc) && HasRight(pc') == HasRight(pc))
       || (Taken(s, left, t, s') && !HasLeft(pc) && HasLeft(pc') && HasRight(pc') == HasRight(pc))
       || (Taken(s, right, t, s') && !HasRight(pc) && HasRight(pc') && HasLeft(pc') == HasLeft(pc))
       || (s'.forks == s.forks[left := None] && HasLeft(pc) && !HasLeft(pc') && HasRight(pc') == HasRight(pc))
       || (s'.forks == s.forks[right := None] && HasRight(pc) && !HasRight(pc') && HasLeft(pc') == HasLeft(pc))
  }

  ghost predicate Taken(s: State, f: nat, t: nat, s': State)
    requires f < |s.forks|
  {
    s.forks[f].None? && s'.forks == s.forks[f := Some(t)]
  }

  predicate IsBroadcast(s: State, e: Event)
  {
    e.Go? && e.t < |s.pcs| && s.pcs[e.t] == Broadcast
  }

  lemma HolderForks(s: State, p: nat)
    requires Next(s, p).Some? && HoldsMutex(s.pcs[p]) && s.pcs[p] != Broadcast
    ensures Table(s) && p < |s.pcs| && ForksMove(s, p, Next(s, p).value)
  {
  }

  lemma StepForks(s: State, e: Event)
    requires Step(s, e).Some? && !IsBroadcast(s, e)
    ensures Table(s) && e.t < |s.pcs| && ForksMove(s, e.t, Step(s, e).value)
  {
    if e.Go? && HoldsMutex(s.pcs[e.t]) {
      HolderForks(s, e.t);
    }
  }

  lemma StepForkInv(s: State, e: Event)
    requires LockInv(s) && ForkInv(s) && Step(s, e).Some?
    ensures Table(Step(s, e).value) && ForkInv(Step(s, e).value)
  {
    if !IsBroadcast(s, e) {
      StepForks(s, e);
      ForksMoveKeeps(s, e.t, Step(s, e).value);
    } else {
      BroadcastKeepsForks(s, e.t);
    }
  }

  lemma BroadcastKeepsForks(s: State, t: nat)
    requires Table(s) && ForkInv(s) && t < |s.pcs| && s.pcs[t] == Broadcast
    ensures Table(Next(s, t).value) && ForkInv(Next(s, t).value)
  {
    var s' := Next(s, t).value;
    forall q | 0 <= q < |s'.pcs|
      ensures Owns(s', q)
    {
      assert Owns(s, q);
    }
  }

  lemma ForksMoveKeeps(s: State, t: nat, s': State)
    requires Table(s) && ForkInv(s) && t < |s.pcs| && ForksMove(s, t, s')
    ensures Table(s') && ForkInv(s')
  {
    assert Owns(s, t);
    forall q | 0 <= q < |s'.pcs|
      ensures Owns(s', q)
    {
      assert Owns(s, q);
    }
  }

  /** A fork kept for a meal stays kept until the broadcast falls due. */
  lemma KeptUntilBroadcast(s: State, e: Event, p: nat, f: nat)
    requires Inv(s) && Step(s, e).Some? && !IsBroadcast(s, e)
    requires f < |s.forks| && Kept(s, p, f)
    ensures var s' := Step(s, e).value; Table(s') && (BroadcastDue(s') || Kept(s', p, f))
  {
    StepForks(s, e);
    StepLockInv(s, e);
    var q := s.forks[f].value;
    assert Owns(s, e.t) && Owns(s, q);
    assert OwnedBy(s, f, q);
    HasBothUntilPut(s, e, q);
  }

  lemma HasBothUntilPut(s: State, e: Event, q: nat)
    requires Step(s, e).Some? && !IsBroadcast(s, e) && q < |s.pcs| && HasBoth(s.pcs[q])
    ensures var s' := Step(s, e).value; q < |s'.pcs| && (HasBoth(s'.pcs[q]) || s'.pcs[q] == PutRight)
  {
  }

  /** A broadcast that is due stays due until it is made. */
  lemma DueUntilBroadcast(s: State, e: Event)
    requires LockInv(s) && Step(s, e).Some? && !IsBroadcast(s, e) && BroadcastDue(s)
    ensures BroadcastDue(Step(s, e).value)
  {
  }

  /** Whoever gives up does so because a neighbour has a fork and, not having the mutex, has
      both for a meal. */
  lemma GivesUpForAMeal(s: State, e: Event)
    requires Inv(s) && Step(s, e).Some? && !Waits(s.pcs[e.t]) && Waits(Step(s, e).value.pcs[e.t])
    ensures Table(Step(s, e).value) && Excused(Step(s, e).value, e.t)
  {
    var left, right := e.t, Right(|s.forks|, e.t);
    var f := if s.pcs[e.t] == TryLeft then left else right;
    var q := s.forks[f].value;
    assert OwnedBy(s, f, q) && Owns(s, e.t);
    assert HasBoth(s.pcs[q]);
    assert Kept(Step(s, e).value, e.t, f);
  }

  lemma BroadcastLeavesNobodyWaiting(s: State, t: nat, p: nat)
    requires LockInv(s) && t < |s.pcs| && s.pcs[t] == Broadcast && p < |s.pcs|
    ensures p < |Next(s, t).value.pcs| && !Waits(Next(s, t).value.pcs[p])
  {
  }

  lemma StepWakeupInv(s: State, e: Event)
    requires Inv(s) && Step(s, e).Some?
    ensures Table(Step(s, e).value) && WakeupInv(Step(s, e).value)
  {
    var s' := Step(s, e).value;
    StepLockInv(s, e);
    forall p | 0 <= p < |s'.pcs| && Waits(s'.pcs[p])
      ensures Excused(s', p)
    {
      if IsBroadcast(s, e) {
        BroadcastLeavesNobodyWaiting(s, e.t, p);
      } else {
        StepForks(s, e);
        if !Waits(s.pcs[p]) {
          GivesUpForAMeal(s, e);
        } else if BroadcastDue(s) {
          DueUntilBroadcast(s, e);
        } else {
          var f := if Kept(s, p, p) then p else Right(|s.forks|, p);
          assert Excused(s, p);
          KeptUntilBroadcast(s, e, p, f);
        }
      }
    }
  }

  lemma StepInv(s: State, e: Event)
    requires Inv(s) && Step(s, e).Some?
    ensures Inv(Step(s, e).value)
  {
    StepLockInv(s, e);
    StepForkInv(s, e);
    StepWakeupInv(s, e);
  }

  lemma {:induction false} Reachable(s: State, schedule: seq<Event>)
    requires Init(s) && Exec(Step, s, schedule).Some?
    ensures Inv(Exec(Step, s, schedule).value)
  {
    forall x, e | Inv(x) && Step(x, e).Some?
      ensures Inv(Step(x, e).value)
    {
      StepInv(x, e);
    }
    Invariant(Step, Inv, s, schedule);
  }

  // ---------------------------------------------------------------- what it gives

  lemma NeighboursNeverEatTogether(s: State, p: nat)
    requires Inv(s) && p < |s.pcs|
    ensures !(s.pcs[p] == Eating && s.pcs[Right(|s.pcs|, p)] == Eating)
  {
    assert Owns(s, p) && Owns(s, Right(|s.pcs|, p));
  }

  /** Whenever `forks_mutex` is free, every philosopher holds both forks or neither. */
  lemma BothForksOrNeither(s: State, p: nat)
    requires Inv(s) && s.mutex == None && p < |s.pcs|
    ensures s.forks[p] == Some(p) <==> s.forks[Right(|s.forks|, p)] == Some(p)
  {
    var right := Right(|s.forks|, p);
    assert Owns(s, p) && !HoldsMutex(s.pcs[p]);
    assert s.forks[p].Some? ==> OwnedBy(s, p, s.forks[p].value);
    assert s.forks[right].Some? ==> OwnedBy(s, right, s.forks[right].value);
  }

  /** A neighbour of `p` is at a meal with the fork between them. */
  ghost predicate WaitsForAMeal(s: State, p: nat)
    requires Table(s) && p < |s.pcs|
  {
    exists q :: 0 <= q < |s.pcs| && q != p && (s.pcs[q] == Eating || s.pcs[q] == WantToPut)
                && ((Right(|s.pcs|, q) == p && s.forks[p] == Some(q))
                    || (q == Right(|s.pcs|, p) && s.forks[q] == Some(q)))
  }

  /** No lost wakeup: whenever `forks_mutex` is free, someone asleep has a neighbour who holds
      the fork between them, and that neighbour will broadcast. */
  lemma SleeperHasEatingNeighbour(s: State, p: nat)
    requires Inv(s) && s.mutex == None && p < |s.pcs| && s.pcs[p] == Asleep
    ensures WaitsForAMeal(s, p)
  {
    assert Excused(s, p);
    var f := if Kept(s, p, p) then p else Right(|s.forks|, p);
    var q := s.forks[f].value;
    assert OwnedBy(s, f, q) && !HoldsMutex(s.pcs[q]);
  }

  /** Someone can always step, spurious wakeups not counted. */
  lemma NoDeadlock(s: State)
    requires Inv(s)
    ensures exists p :: Next(s, p).Some?
  {
    if s.mutex.Some? {
      assert HoldsMutex(s.pcs[s.mutex.value]);
      assert Next(s, s.mutex.value).Some?;
    } else if s.pcs[0] == Asleep {
      SleeperHasEatingNeighbour(s, 0);
      var q :| 0 <= q < |s.pcs| && (s.pcs[q] == Eating || s.pcs[q] == WantToPut);
      assert Next(s, q).Some?;
    } else {
      assert !HoldsMutex(s.pcs[0]);
      assert Next(s, 0).Some?;
    }
  }

  /** In every run, spurious wakeups included: neighbours do not eat together, with the mutex
      free a philosopher holds both forks or neither and whoever sleeps has a neighbour at a
      meal, and someone can always step. */
  lemma {:induction false} EveryRunIsSound(s: State, schedule: seq<Event>)
    requires Init(s) && Exec(Step, s, schedule).Some?
    ensures var end := Exec(Step, s, schedule).value;
            && Inv(end) && (exists p :: Next(end, p).Some?)
            && forall p :: 0 <= p < |end.pcs| ==>
                 && !(end.pcs[p] == Eating && end.pcs[Right(|end.pcs|, p)] == Eating)
                 && (end.pcs[p] == Eating ==>
                       end.forks[p] == Some(p) && end.forks[Right(|end.forks|, p)] == Some(p))
                 && (end.mutex == None ==>
                       && (end.forks[p] == Some(p) <==> end.forks[Right(|end.forks|, p)] == Some(p))
                       && (end.pcs[p] == Asleep ==> WaitsForAMeal(end, p)))
  {
    Reachable(s, schedule);
    var end := Exec(Step, s, schedule).value;
    NoDeadlock(end);
    forall p | 0 <= p < |end.pcs|
      ensures !(end.pcs[p] == Eating && end.pcs[Right(|end.pcs|, p)] == Eating)
      ensures end.pcs[p] == Eating ==> end.forks[p] == Some(p) && end.forks[Right(|end.forks|, p)] == Some(p)
      ensures end.mutex == None ==>
                && (end.forks[p] == Some(p) <==> end.forks[Right(|end.forks|, p)] == Some(p))
                && (end.pcs[p] == Asleep ==> WaitsForAMeal(end, p))
    {
      assert Owns(end, p);
      NeighboursNeverEatTogether(end, p);
      if end.mutex == None {
        BothForksOrNeither(end, p);
        if end.pcs[p] == Asleep {
          SleeperHasEatingNeighbour(end, p);
        }
      }
    }
  }

  /** Philosopher `p` eats now and did not before, and holds both forks. */
  predicate Begins(s: State, s': State, p: nat)
  {
    && p < |s.pcs| == |s'.pcs| == |s'.forks| && s.pcs[p] != Eating && s'.pcs[p] == Eating
    && s'.forks[p] == Some(p) && s'.forks[Right(|s'.forks|, p)] == Some(p)
  }

  /** Someone begins to eat. */
  predicate MealBegins(s: State, s': State)
  {
    exists p :: 0 <= p < |s.pcs| && Begins(s, s', p)
  }

  /** The steps with which no meal begins. */
  function Fast(s: State, p: nat): Option<State>
  {
    match Next(s, p)
    case None => None
    case Some(s') => if MealBegins(s, s') then None else Some(s')
  }

  /** Steps to the next meal or to sleep. A meal in progress pays for the wakeups of its
      broadcast. */
  function Rank(n: nat, pc: Pc): int
  {
    match pc
    case Asleep | Leave => 0
    case CondWait => 1
    case DropLeft => 2
    case TryRight => 3
    case TryLeft => 4
    case Woken | WantMutex => 5
    case Thinking => 6
    case LastUnlock => 7
    case Broadcast => 5 * n + 8
    case PutRight => 5 * n + 9
    case PutLeft => 5 * n + 10
    case WantToPut => 5 * n + 11
    case Eating => 5 * n + 12
  }

  function RankIn(n: nat): Pc -> int { pc => Rank(n, pc) }

  function Total(s: State): int { Sum(RankIn(|s.pcs|), s.pcs) }

  lemma {:induction false} WakingCosts(n: nat, pcs: seq<Pc>)
    ensures Sum(RankIn(n), WakeAll(pcs)) <= Sum(RankIn(n), pcs) + 5 * |pcs|
  {
    if pcs != [] {
      assert WakeAll(pcs)[1..] == WakeAll(pcs[1..]);
      WakingCosts(n, pcs[1..]);
    }
  }

  lemma {:induction false} TotalIsBounded(n: nat, pcs: seq<Pc>)
    ensures Sum(RankIn(n), pcs) <= (5 * n + 12) * |pcs|
  {
    if pcs != [] {
      TotalIsBounded(n, pcs[1..]);
      assert (5 * n + 12) * |pcs| == (5 * n + 12) * |pcs[1..]| + (5 * n + 12);
    }
  }

  lemma LeavingBeginsMeal(s: State, p: nat)
    requires Inv(s) && p < |s.pcs| && s.pcs[p] == Leave
    ensures Next(s, p).Some? && Begins(s, Next(s, p).value, p)
  {
    assert Owns(s, p);
  }

  lemma FastLowersRank(s: State, p: nat)
    requires Fast(s, p).Some? && s.pcs[p] != Broadcast && s.pcs[p] != Leave
    ensures p < |s.pcs| && p < |Fast(s, p).value.pcs| && Fast(s, p).value.pcs == s.pcs[p := Fast(s, p).value.pcs[p]]
    ensures Rank(|s.pcs|, Fast(s, p).value.pcs[p]) < Rank(|s.pcs|, s.pcs[p])
  {
  }

  lemma FastLowersTotal(s: State, p: nat)
    requires Inv(s) && Fast(s, p).Some?
    ensures Inv(Fast(s, p).value) && Total(Fast(s, p).value) < Total(s)
  {
    var s' := Fast(s, p).value;
    var n := |s.pcs|;
    assert Step(s, Go(p)) == Next(s, p);
    StepInv(s, Go(p));
    if s.pcs[p] == Broadcast {
      WakingCosts(n, s.pcs);
      SumUpdate(RankIn(n), WakeAll(s.pcs), p, LastUnlock);
    } else {
      if s.pcs[p] == Leave {
        LeavingBeginsMeal(s, p);
      }
      FastLowersRank(s, p);
      SumUpdate(RankIn(n), s.pcs, p, s'.pcs[p]);
    }
  }

  lemma {:induction false} FastRunsAreShort(s: State, schedule: seq<nat>)
    requires Inv(s) && Exec(Fast, s, schedule).Some?
    ensures |schedule| <= Total(s) && Inv(Exec(Fast, s, schedule).value)
  {
    forall x, p | Inv(x) && Fast(x, p).Some?
      ensures Inv(Fast(x, p).value) && Total(Fast(x, p).value) < Total(x)
    {
      FastLowersTotal(x, p);
    }
    Bounded(Fast, Inv, Total, s, schedule);
    Invariant(Fast, Inv, s, schedule);
    var end := Exec(Fast, s, schedule).value;
    SumNonNegative(RankIn(|end.pcs|), end.pcs);
  }

  /** Without spurious wakeups at most (5n + 12)n steps pass at an n-seat table in which no meal
      begins, and someone can always step. */
  lemma {:induction false} MealsNeverStop(s: State, schedule: seq<nat>)
    requires Inv(s) && Exec(Fast, s, schedule).Some?
    ensures |schedule| <= (5 * |s.pcs| + 12) * |s.pcs|
    ensures exists p :: Next(Exec(Fast, s, schedule).value, p).Some?
  {
    FastRunsAreShort(s, schedule);
    TotalIsBounded(|s.pcs|, s.pcs);
    NoDeadlock(Exec(Fast, s, schedule).value);
  }

  /** So in every longer run someone begins to eat, with both forks: meals never stop. */
  lemma {:induction false} MealsKeepBeginning(s: State, schedule: seq<nat>)
    requires Inv(s) && Exec(Next, s, schedule).Some? && |schedule| > (5 * |s.pcs| + 12) * |s.pcs|
    ensures exists i :: 0 <= i < |schedule| && MealAt(s, schedule, i)
  {
    if Exec(Fast, s, schedule).Some? {
      MealsNeverStop(s, schedule);
    }
    FirstLeftOut(Next, Fast, s, schedule);
    var i :| 0 <= i < |schedule| && LeftOut(Next, Fast, s, schedule, i);
    ExecSplit(Next, s, schedule, i);
    assert MealAt(s, schedule, i);
  }

  /** Event `i` of the schedule begins a meal. */
  ghost predicate MealAt(s: State, schedule: seq<nat>, i: nat)
    requires i < |schedule|
  {
    var before, after := Exec(Next, s, schedule[..i]), Exec(Next, s, schedule[..i + 1]);
    before.Some? && after.Some? && MealBegins(before.value, after.value)
  }

  // ---------------------------------------------------------------- the code

  lemma {:induction false} TwoTurns(s: State, p: nat, mid: State, end: State)
    requires Next(s, p) == Some(mid) && Next(mid, p) == Some(end)
    ensures Alone(Next, p, s, end)
  {
    AloneStay(Next, p, end);
    AloneStep(Next, p, mid, end, end);
    AloneStep(Next, p, s, mid, end);
  }

  lemma {:induction false} HuntSucceeds(s: State, p: nat)
    requires Table(s) && p < |s.pcs| && s.pcs[p] == TryLeft
    requires s.forks[p].None? && s.forks[Right(|s.forks|, p)].None?
    ensures Alone(Next, p, s, State(s.forks[p := Some(p)][Right(|s.forks|, p) := Some(p)], s.mutex, s.pcs[p := Leave]))
  {
    var mid := State(s.forks[p := Some(p)], s.mutex, s.pcs[p := TryRight]);
    assert mid.pcs[p := Leave] == s.pcs[p := Leave];
    TwoTurns(s, p, mid, State(mid.forks[Right(|s.forks|, p) := Some(p)], s.mutex, s.pcs[p := Leave]));
  }

  lemma {:induction false} HuntFails(s: State, p: nat)
    requires Table(s) && p < |s.pcs| && s.pcs[p] == TryLeft
    requires s.forks[p].Some? || s.forks[Right(|s.forks|, p)].Some?
    ensures Alone(Next, p, s, State(s.forks, None, s.pcs[p := Asleep]))
  {
    var end := State(s.forks, None, s.pcs[p := Asleep]);
    var giveUp := s.(pcs := s.pcs[p := CondWait]);
    assert giveUp.pcs[p := Asleep] == end.pcs;
    if s.forks[p].Some? {
      TwoTurns(s, p, giveUp, end);
    } else {
      var first := State(s.forks[p := Some(p)], s.mutex, s.pcs[p := TryRight]);
      var second := State(first.forks, s.mutex, s.pcs[p := DropLeft]);
      assert first.pcs[p := DropLeft] == second.pcs && second.pcs[p := CondWait] == giveUp.pcs;
      assert first.forks[p := None] == s.forks;
      TwoTurns(second, p, giveUp, end);
      AloneStep(Next, p, first, second, end);
      AloneStep(Next, p, s, first, end);
    }
  }

  lemma {:induction false} EveryoneWoken(s: State, p: nat)
    requires Table(s) && p < |s.pcs| && s.pcs[p] == Broadcast
    ensures Alone(Next, p, s, State(s.forks, None, WakeAll(s.pcs)[p := Thinking]))
  {
    var mid := s.(pcs := WakeAll(s.pcs)[p := LastUnlock]);
    assert mid.pcs[p := Thinking] == WakeAll(s.pcs)[p := Thinking];
    TwoTurns(s, p, mid, State(s.forks, None, WakeAll(s.pcs)[p := Thinking]));
  }

  lemma {:induction false} PutsDownAndWakes(s: State, p: nat)
    requires Table(s) && p < |s.pcs| && s.pcs[p] == PutLeft
    ensures Alone(Next, p, s,
                  State(s.forks[p := None][Right(|s.forks|, p) := None], None, WakeAll(s.pcs)[p := Thinking]))
  {
    var first := State(s.forks[p := None], s.mutex, s.pcs[p := PutRight]);
    var second := State(first.forks[Right(|s.forks|, p) := None], s.mutex, s.pcs[p := Broadcast]);
    var end := State(second.forks, None, WakeAll(s.pcs)[p := Thinking]);
    assert first.pcs[p := Broadcast] == second.pcs;
    assert WakeAll(second.pcs)[p := Thinking] == end.pcs;
    EveryoneWoken(second, p);
    AloneStep(Next, p, first, second, end);
    AloneStep(Next, p, s, first, end);
  }

  /** A meal ends: with the mutex free, turns of the one who eats put down both forks, leave
      nobody asleep and the mutex free again. */
  lemma {:induction false} MealEnds(s: State, p: nat)
    requires Table(s) && p < |s.pcs| && s.pcs[p] == Eating && s.mutex == None
    ensures Alone(Next, p, s,
                  State(s.forks[p := None][Right(|s.forks|, p) := None], None, WakeAll(s.pcs)[p := Thinking]))
  {
    var first := s.(pcs := s.pcs[p := WantToPut]);
    var second := State(s.forks, Some(p), s.pcs[p := PutLeft]);
    var end := State(s.forks[p := None][Right(|s.forks|, p) := None], None, WakeAll(s.pcs)[p := Thinking]);
    assert first.pcs[p := PutLeft] == second.pcs;
    assert WakeAll(second.pcs)[p := Thinking] == end.pcs;
    PutsDownAndWakes(second, p);
    AloneStep(Next, p, first, second, end);
    AloneStep(Next, p, s, first, end);
  }

  /** A spurious wakeup can come to whoever sleeps, and to nobody else; it leads to the mutex. */
  lemma AnySleeperMayWake(s: State, p: nat)
    requires Table(s) && p < |s.pcs|
    ensures Step(s, SpuriousWakeup(p)).Some? <==> s.pcs[p] == Asleep
    ensures s.pcs[p] == Asleep ==> Step(s, SpuriousWakeup(p)).value == s.(pcs := s.pcs[p := Woken])
  {
  }

  /** `forks`, `forks_mutex` and the place in `philosopher` at which each thread stands. */
  class Dinner {
    const forks: array<Option<nat>>
    var mutex: Option<nat>
    var pcs: seq<Pc>

    constructor (n: nat)
      requires 2 <= n
      ensures fresh(forks) && Init(View()) && |pcs| == n
    {
      forks := new Option<nat>[n](_ => None);
      mutex := None;
      pcs := seq(n, _ => Thinking);
    }

    ghost function View(): State
      reads this, forks
    {
      State(forks[..], mutex, pcs)
    }

    /** The statements that touch no fork and do not hunt: thinking, the unlock before the meal,
        the meal itself, and the lock after it. */
    method Proceed(id: nat)
      requires Table(View()) && id < |pcs|
      requires pcs[id] == Thinking || pcs[id] == Leave || pcs[id] == Eating || (pcs[id] == WantToPut && mutex == None)
      modifies this`mutex, this`pcs
      ensures Next(old(View()), id) == Some(View())
      ensures old(pcs[id]) == Leave ==> pcs[id] == Eating && mutex == None
    {
      match pcs[id]
      case Thinking =>
        pcs := pcs[id := WantMutex];
      case Leave =>
        mutex := None;
        pcs := pcs[id := Eating];
      case Eating =>
        pcs := pcs[id := WantToPut];
      case WantToPut =>
        mutex := Some(id);
        pcs := pcs[id := PutLeft];
    }

    /** Takes `forks_mutex`, if it is free, to hunt for forks. */
    method Enter(id: nat)
      requires Table(View()) && id < |pcs| && (pcs[id] == WantMutex || pcs[id] == Woken) && mutex == None
      modifies this`mutex, this`pcs
      ensures Next(old(View()), id) == Some(View())
    {
      mutex := Some(id);
      pcs := pcs[id := TryLeft];
    }

    /** One round of `while (!success)` with the mutex held, up to the sleep or the success;
        nobody else can touch a fork in between. */
    method Hunt(id: nat) returns (success: bool)
      requires Inv(View()) && id < |pcs| && pcs[id] == TryLeft
      modifies this, forks
      ensures Alone(Next, id, old(View()), View())
      ensures success ==> pcs == old(pcs)[id := Leave] && mutex == old(mutex)
                          && forks[..] == old(forks[..])[id := Some(id)][Right(forks.Length, id) := Some(id)]
      ensures !success ==> forks[..] == old(forks[..]) && mutex == None && pcs == old(pcs)[id := Asleep]
      ensures success <==> old(forks[id] == None && forks[Right(forks.Length, id)] == None)
    {
      RightIsModulo(forks.Length, id);
      var left, right := id, (id + 1) % forks.Length;
      success := false;
      if forks[left] == None {
        forks[left] := Some(id);
        if forks[right] == None {
          forks[right] := Some(id);
          success := true;
          pcs := pcs[id := Leave];
          HuntSucceeds(old(View()), id);
          assert forks[..] == old(forks[..])[left := Some(id)][right := Some(id)];
          return;
        } else {
          forks[left] := None;
        }
      }
      mutex := None;
      pcs := pcs[id := Asleep];
      HuntFails(old(View()), id);
      assert forks[..] == old(forks[..]);
    }

    /** The critical section after the meal: both forks down, everyone woken. */
    method PutDown(id: nat)
      requires Inv(View()) && id < |pcs| && pcs[id] == PutLeft
      modifies this, forks
      ensures Alone(Next, id, old(View()), View())
      ensures mutex == None && pcs == WakeAll(old(pcs))[id := Thinking]
      ensures forks[..] == old(forks[..])[id := None][Right(forks.Length, id) := None]
    {
      RightIsModulo(forks.Length, id);
      forks[id] := None;
      forks[(id + 1) % forks.Length] := None;
      pcs := WakeAll(pcs)[id := Thinking];
      mutex := None;
      PutsDownAndWakes(old(View()), id);
      assert forks[..] == old(forks[..])[id := None][Right(forks.Length, id) := None];
    }
  }
}
