/** `pr13task2.c`: one owner refills a bowl, any number of cats eat from it; two condition
  variables under one mutex.
 */
module CatBowl {
  import opened Runs
  import opened Tally

  const MAX_FOOD := 1000
  const MIN_FOOD := 100
  const CAT_EAT_AMOUNT := 100
  const FOOD_AT_START := 500

  datatype OwnerPc = Want | Check | Asleep | Broadcast | Unlock

  datatype CatPc =
    | CatWant | CatCheck
    | Alarm | CatWait | CatAsleep  // too little food: signal, then wait
    | SignalLow | CatUnlock        // has eaten

  datatype Holder = Nobody | TheOwner | ACat(i: nat)

  /** `meals` and `refills` count. */
  datatype State = State(food: int, mutex: Holder, owner: OwnerPc, cats: seq<CatPc>, meals: nat, refills: nat)

  datatype Who = Owner | Cat(i: nat)

  datatype Event = Go(who: Who) | SpuriousWakeup(who: Who)

  ghost predicate Init(s: State)
  {
    && s.food == FOOD_AT_START && s.mutex == Nobody && s.owner == Want && s.meals == s.refills == 0
    && forall i :: 0 <= i < |s.cats| ==> s.cats[i] == CatWant
  }

  function Step(s: State, e: Event): Option<State>
  {
    match e
    case Go(who) => Next(s, who)
    case SpuriousWakeup(Owner) => if s.owner == Asleep then Some(s.(owner := Want)) else None
    case SpuriousWakeup(Cat(i)) =>
      if i < |s.cats| && s.cats[i] == CatAsleep then Some(s.(cats := s.cats[i := CatWant])) else None
  }

  function Next(s: State, who: Who): Option<State>
  {
    match who
    case Owner => OwnerNext(s)
    case Cat(i) => if i < |s.cats| then CatNext(s, i) else None
  }

  function OwnerNext(s: State): Option<State>
  {
    match s.owner
    case Want => if s.mutex == Nobody then Some(s.(mutex := TheOwner, owner := Check)) else None
    case Check =>
      if s.food > MIN_FOOD then Some(s.(mutex := Nobody, owner := Asleep))
      else Some(s.(food := MAX_FOOD, owner := Broadcast, refills := s.refills + 1))
    case Asleep => None
    case Broadcast => Some(s.(owner := Unlock, cats := WakeAll(s.cats)))
    case Unlock => Some(s.(mutex := Nobody, owner := Want))
  }

  function WakeAll(cats: seq<CatPc>): (woken: seq<CatPc>)
    ensures |woken| == |cats|
    ensures forall i :: 0 <= i < |cats| ==> woken[i] == if cats[i] == CatAsleep then CatWant else cats[i]
  {
    seq(|cats|, i requires 0 <= i < |cats| => if cats[i] == CatAsleep then CatWant else cats[i])
  }

  /** The owner after `pthread_cond_signal(&need_more_food)`. */
  function Signalled(owner: OwnerPc): OwnerPc
  {
    if owner == Asleep then Want else owner
  }

  function CatNext(s: State, i: nat): Option<State>
    requires i < |s.cats|
  {
    match s.cats[i]
    case CatWant => if s.mutex == Nobody then Some(s.(mutex := ACat(i), cats := s.cats[i := CatCheck])) else None
    case CatCheck =>
      if s.food < CAT_EAT_AMOUNT then
        Some(s.(cats := s.cats[i := if s.food <= MIN_FOOD then Alarm else CatWait]))
      else
        var food := s.food - CAT_EAT_AMOUNT;
        Some(s.(food := food, meals := s.meals + 1,
                cats := s.cats[i := if food <= MIN_FOOD then SignalLow else CatUnlock]))
    case Alarm => Some(s.(owner := Signalled(s.owner), cats := s.cats[i := CatWait]))
    case CatWait => Some(s.(mutex := Nobody, cats := s.cats[i := CatAsleep]))
    case CatAsleep => None
    case SignalLow => Some(s.(owner := Signalled(s.owner), cats := s.cats[i := CatUnlock]))
    case CatUnlock => Some(s.(mutex := Nobody, cats := s.cats[i := CatWant]))
  }

  // ---------------------------------------------------------------- invariant

  predicate OwnerHolds(pc: OwnerPc) { pc == Check || pc == Broadcast || pc == Unlock }

  predicate CatHolds(pc: CatPc) { pc != CatWant && pc != CatAsleep }

  predicate CatHungry(pc: CatPc) { pc == Alarm || pc == CatWait || pc == CatAsleep }

  ghost predicate LockInv(s: State)
  {
    && (s.mutex.ACat? ==> s.mutex.i < |s.cats|)
    && (OwnerHolds(s.owner) <==> s.mutex == TheOwner)
    && forall i :: 0 <= i < |s.cats| ==> (CatHolds(s.cats[i]) <==> s.mutex == ACat(i))
  }

  /** The bowl holds a multiple of a portion, and food is neither lost nor made. */
  ghost predicate FoodInv(s: State)
  {
    && 0 <= s.food <= MAX_FOOD && s.food % CAT_EAT_AMOUNT == 0
    && (s.owner == Broadcast ==> s.food == MAX_FOOD)
    && FOOD_AT_START + (MAX_FOOD - MIN_FOOD) * s.refills
       <= s.food + CAT_EAT_AMOUNT * s.meals <= FOOD_AT_START + MAX_FOOD * s.refills
  }

  /** Nobody sleeps who could go on, unless the wakeup is already on its way. */
  ghost predicate WakeupInv(s: State)
  {
    && (s.owner == Asleep ==>
          s.food > MIN_FOOD || (s.mutex.ACat? && s.mutex.i < |s.cats| && s.cats[s.mutex.i] == SignalLow))
    && (forall i :: 0 <= i < |s.cats| && CatHungry(s.cats[i]) ==> s.food < CAT_EAT_AMOUNT || s.owner == Broadcast)
    && forall i :: 0 <= i < |s.cats| && s.cats[i] == SignalLow ==> s.food <= MIN_FOOD
  }

  ghost predicate Inv(s: State)
  {
    LockInv(s) && FoodInv(s) && WakeupInv(s)
  }

  lemma OwnerKeepsInv(s: State)
    requires Inv(s) && OwnerNext(s).Some?
    ensures Inv(OwnerNext(s).value)
  {
  }

  lemma CatKeepsLocks(s: State, i: nat)
    requires Inv(s) && i < |s.cats| && CatNext(s, i).Some?
    ensures LockInv(CatNext(s, i).value) && FoodInv(CatNext(s, i).value)
  {
  }

  lemma CatKeepsWakeups(s: State, i: nat)
    requires Inv(s) && i < |s.cats| && CatNext(s, i).Some?
    ensures WakeupInv(CatNext(s, i).value)
  {
  }

  lemma StepInv(s: State, e: Event)
    requires Inv(s) && Step(s, e).Some?
    ensures Inv(Step(s, e).value)
  {
    match e
    case Go(Owner) => OwnerKeepsInv(s);
    case Go(Cat(i)) =>
      CatKeepsLocks(s, i);
      CatKeepsWakeups(s, i);
    case SpuriousWakeup(_) =>
  }

  /** In every reachable state: the food is a multiple of 100 between 0 and 1000; while the
      mutex is free the owner sleeps only above the minimum and a cat only below a portion;
      and meals keep pace with refills. */
  lemma {:induction false} BowlIsWellKept(s: State, schedule: seq<Event>)
    requires Init(s) && Exec(Step, s, schedule).Some?
    ensures var end := Exec(Step, s, schedule).value;
            && Inv(end)
            && 0 <= end.food <= MAX_FOOD && end.food % 100 == 0
            && (end.mutex == Nobody && end.owner == Asleep ==> end.food > MIN_FOOD)
            && (end.mutex == Nobody ==>
                  forall i :: 0 <= i < |end.cats| && end.cats[i] == CatAsleep ==> end.food < CAT_EAT_AMOUNT)
            && 9 * end.refills - 5 <= end.meals <= 10 * end.refills + 5
  {
    forall x, e | Inv(x) && Step(x, e).Some?
      ensures Inv(Step(x, e).value)
    {
      StepInv(x, e);
    }
    Invariant(Step, Inv, s, schedule);
  }

  // ---------------------------------------------------------------- progress

  lemma NoDeadlock(s: State)
    requires Inv(s) && |s.cats| >= 1
    ensures exists who :: Next(s, who).Some?
  {
    match s.mutex
    case ACat(i) => assert CatHolds(s.cats[i]) && Next(s, Cat(i)).Some?;
    case TheOwner => assert Next(s, Owner).Some?;
    case Nobody =>
      assert !CatHolds(s.cats[0]) && !OwnerHolds(s.owner);
      assert Next(s, Owner).Some? || Next(s, Cat(0)).Some?;
  }

  /** The food changes by meals and refills only: a cat eats one portion, the owner fills a bowl
      that is low. */
  lemma FoodMoves(s: State, who: Who)
    requires Inv(s) && Next(s, who).Some?
    ensures var s' := Next(s, who).value;
            if s'.meals != s.meals then
              && who.Cat? && s'.meals == s.meals + 1 && s'.refills == s.refills
              && s'.food == s.food - CAT_EAT_AMOUNT >= 0
            else if s'.refills != s.refills then
              who == Owner && s'.refills == s.refills + 1 && s.food <= MIN_FOOD && s'.food == MAX_FOOD
            else s'.food == s.food
  {
  }

  /** The steps that are not meals: none is counted. */
  function Fast(s: State, who: Who): Option<State>
  {
    match Next(s, who)
    case None => None
    case Some(s') => if s'.meals != s.meals then None else Some(s')
  }

  function CatRank(pc: CatPc): int
  {
    match pc
    case CatAsleep => 0
    case CatWait => 1
    case Alarm => 4
    case CatCheck => 5
    case CatWant => 6
    case CatUnlock => 7
    case SignalLow => 10
  }

  function OwnerRank(n: nat, pc: OwnerPc): int
  {
    match pc
    case Asleep => 0
    case Check => 1
    case Want => 2
    case Unlock => 3
    case Broadcast => 6 * n + 4
  }

  /** Steps that can pass without a meal. A bowl that is low pays for one refill and the
      wakeups it brings. */
  function Patience(s: State): int
  {
    Sum(CatRank, s.cats) + OwnerRank(|s.cats|, s.owner) + if s.food <= MIN_FOOD then 6 * |s.cats| + 10 else 0
  }

  lemma {:induction false} WakingCosts(cats: seq<CatPc>)
    ensures Sum(CatRank, WakeAll(cats)) <= Sum(CatRank, cats) + 6 * |cats|
  {
    if cats != [] {
      assert WakeAll(cats)[1..] == WakeAll(cats[1..]);
      WakingCosts(cats[1..]);
    }
  }

  lemma {:induction false} PatienceIsBounded(cats: seq<CatPc>)
    ensures 0 <= Sum(CatRank, cats) <= 10 * |cats|
  {
    if cats != [] {
      PatienceIsBounded(cats[1..]);
    }
  }

  lemma FastLowersPatience(s: State, who: Who)
    requires Inv(s) && Fast(s, who).Some?
    ensures Inv(Fast(s, who).value) && Patience(Fast(s, who).value) < Patience(s)
  {
    var s' := Fast(s, who).value;
    assert Step(s, Go(who)) == Next(s, who);
    StepInv(s, Go(who));
    match who
    case Owner => WakingCosts(s.cats);
    case Cat(i) => SumUpdate(CatRank, s.cats, i, s'.cats[i]);
  }

  ghost predicate InvFor(n: nat, s: State)
  {
    Inv(s) && |s.cats| == n
  }

  lemma FastKeepsCats(n: nat, s: State, who: Who)
    requires InvFor(n, s) && Fast(s, who).Some?
    ensures InvFor(n, Fast(s, who).value) && Patience(Fast(s, who).value) < Patience(s)
  {
    FastLowersPatience(s, who);
  }

  /** Without spurious wakeups at most 22n + 14 steps pass between meals of n cats, and someone
      can always step. */
  lemma {:induction false} MealsNeverStop(s: State, schedule: seq<Who>)
    requires Inv(s) && |s.cats| >= 1 && Exec(Fast, s, schedule).Some?
    ensures |schedule| <= 22 * |s.cats| + 14
    ensures exists who :: Next(Exec(Fast, s, schedule).value, who).Some?
  {
    var inv := (x: State) => InvFor(|s.cats|, x);
    forall x, who | inv(x) && Fast(x, who).Some?
      ensures inv(Fast(x, who).value) && Patience(Fast(x, who).value) < Patience(x)
    {
      FastKeepsCats(|s.cats|, x, who);
    }
    Bounded(Fast, inv, Patience, s, schedule);
    Invariant(Fast, inv, s, schedule);
    var end := Exec(Fast, s, schedule).value;
    PatienceIsBounded(s.cats);
    PatienceIsBounded(end.cats);
    NoDeadlock(end);
  }

  /** So in every longer run a cat eats: one more meal, and a portion less in the bowl. */
  lemma {:induction false} MealsKeepComing(s: State, schedule: seq<Who>)
    requires Inv(s) && |s.cats| >= 1 && Exec(Next, s, schedule).Some? && |schedule| > 22 * |s.cats| + 14
    ensures exists i :: 0 <= i < |schedule| && MealAt(s, schedule, i)
  {
    if Exec(Fast, s, schedule).Some? {
      MealsNeverStop(s, schedule);
    }
    FirstLeftOut(Next, Fast, s, schedule);
    var i :| 0 <= i < |schedule| && LeftOut(Next, Fast, s, schedule, i);
    ExecSplit(Next, s, schedule, i);
    RunInv(s, schedule[..i]);
    FoodMoves(Exec(Next, s, schedule[..i]).value, schedule[i]);
    assert MealAt(s, schedule, i);
  }

  /** Event `i` of the schedule is a meal. */
  ghost predicate MealAt(s: State, schedule: seq<Who>, i: nat)
    requires i < |schedule|
  {
    var before, after := Exec(Next, s, schedule[..i]), Exec(Next, s, schedule[..i + 1]);
    && before.Some? && after.Some? && schedule[i].Cat?
    && after.value.meals == before.value.meals + 1
    && after.value.food == before.value.food - CAT_EAT_AMOUNT
  }

  lemma {:induction false} RunInv(s: State, schedule: seq<Who>)
    requires Inv(s) && Exec(Next, s, schedule).Some?
    ensures Inv(Exec(Next, s, schedule).value)
  {
    forall x, who | Inv(x) && Next(x, who).Some?
      ensures Inv(Next(x, who).value)
    {
      assert Step(x, Go(who)) == Next(x, who);
      StepInv(x, Go(who));
    }
    Invariant(Next, Inv, s, schedule);
  }

  /** A cat wakes the owner only when the bowl is low, and the owner nobody but with a full one. */
  lemma WakesForAReason(s: State, who: Who)
    requires Inv(s) && Next(s, who).Some?
    ensures var s' := Next(s, who).value;
            && (who.Cat? && s'.owner != s.owner ==> s.food <= MIN_FOOD && s.owner == Asleep && s'.owner == Want)
            && (who.Cat? && s.cats[who.i] == SignalLow ==> s.food <= MIN_FOOD)
            && (who == Owner && s'.cats != s.cats ==> s'.food == MAX_FOOD)
  {
  }

  /** A cat that finds too little signals before it waits, and one that leaves too little after
      its meal; the signal wakes the owner if it sleeps and otherwise changes nothing. */
  lemma LowBowlIsSignalled(s: State, i: nat)
    requires i < |s.cats|
    ensures s.cats[i] == CatCheck && s.food < CAT_EAT_AMOUNT ==> Next(s, Cat(i)).value.cats[i] == Alarm
    ensures s.cats[i] == CatCheck && CAT_EAT_AMOUNT <= s.food <= MIN_FOOD + CAT_EAT_AMOUNT ==>
              Next(s, Cat(i)).value.cats[i] == SignalLow
    ensures s.cats[i] == Alarm || s.cats[i] == SignalLow ==>
              Next(s, Cat(i)).value.owner == if s.owner == Asleep then Want else s.owner
  {
  }

  /** The signal that a cat makes before it waits wakes nobody: the owner is awake already. */
  lemma AlarmFindsOwnerAwake(s: State, i: nat)
    requires Inv(s) && i < |s.cats| && s.cats[i] == Alarm
    ensures s.owner != Asleep
  {
  }

  /** A visit ends with one meal: a cat that has eaten can always give the mutex back in its own
      turns without eating again, having woken the owner if the bowl is low. */
  lemma {:induction false} VisitEnds(s: State, i: nat)
    requires Inv(s) && i < |s.cats| && s.cats[i] == CatCheck && s.food >= CAT_EAT_AMOUNT
    ensures var food := s.food - CAT_EAT_AMOUNT;
            var owner := if food <= MIN_FOOD then Signalled(s.owner) else s.owner;
            Alone(Next, Cat(i), s, State(food, Nobody, owner, s.cats[i := CatWant], s.meals + 1, s.refills))
  {
    var food := s.food - CAT_EAT_AMOUNT;
    var owner := if food <= MIN_FOOD then Signalled(s.owner) else s.owner;
    var fed := s.(food := food, meals := s.meals + 1);
    var unlocking := fed.(owner := owner, cats := s.cats[i := CatUnlock]);
    var end := State(food, Nobody, owner, s.cats[i := CatWant], s.meals + 1, s.refills);
    assert unlocking.cats[i := CatWant] == end.cats;
    AloneStay(Next, Cat(i), end);
    AloneStep(Next, Cat(i), unlocking, end, end);
    if food <= MIN_FOOD {
      var signalling := fed.(cats := s.cats[i := SignalLow]);
      assert signalling.cats[i := CatUnlock] == unlocking.cats;
      AloneStep(Next, Cat(i), signalling, unlocking, end);
      AloneStep(Next, Cat(i), s, signalling, end);
    } else {
      AloneStep(Next, Cat(i), s, unlocking, end);
    }
  }

  /** A refill ends with every cat awake and the mutex free. */
  lemma {:induction false} RefillEnds(s: State)
    requires Inv(s) && s.owner == Check && s.food <= MIN_FOOD
    ensures Alone(Next, Owner, s, State(MAX_FOOD, Nobody, Want, WakeAll(s.cats), s.meals, s.refills + 1))
  {
    var filled := s.(food := MAX_FOOD, owner := Broadcast, refills := s.refills + 1);
    var woken := filled.(owner := Unlock, cats := WakeAll(s.cats));
    var end := woken.(mutex := Nobody, owner := Want);
    AloneStay(Next, Owner, end);
    AloneStep(Next, Owner, woken, end, end);
    AloneStep(Next, Owner, filled, woken, end);
    AloneStep(Next, Owner, s, filled, end);
  }

  /** A spurious wakeup can come to whoever sleeps, and to nobody else; it leads to the mutex. */
  lemma AnySleeperMayWake(s: State, i: nat)
    requires i < |s.cats|
    ensures Step(s, SpuriousWakeup(Owner)) == if s.owner == Asleep then Some(s.(owner := Want)) else None
    ensures Step(s, SpuriousWakeup(Cat(i))) ==
            if s.cats[i] == CatAsleep then Some(s.(cats := s.cats[i := CatWant])) else None
  {
  }

  // ---------------------------------------------------------------- the code

  /** `food_amount` and the counters, as the critical sections change them. */
  class Bowl {
    var foodAmount: int
    ghost var meals: nat
    ghost var refills: nat

    constructor ()
      ensures foodAmount == FOOD_AT_START && meals == refills == 0
    {
      foodAmount := FOOD_AT_START;
      meals, refills := 0, 0;
    }

    ghost function View(mutex: Holder, owner: OwnerPc, cats: seq<CatPc>): State
      reads this
    {
      State(foodAmount, mutex, owner, cats, meals, refills)
    }

    /** What `owner` does once its wait is over. */
    method Refill(cats: seq<CatPc>) returns (addAmount: int)
      requires foodAmount <= MIN_FOOD
      modifies this
      ensures OwnerNext(old(View(TheOwner, Check, cats))) == Some(View(TheOwner, Broadcast, cats))
      ensures foodAmount == old(foodAmount) + addAmount
    {
      addAmount := MAX_FOOD - foodAmount;
      foodAmount := MAX_FOOD;
      refills := refills + 1;
    }

    /** What `cat` does with the mutex held, from its check to its signal. */
    method Visit(i: nat, owner: OwnerPc, cats: seq<CatPc>) returns (next: CatPc)
      requires i < |cats| && cats[i] == CatCheck
      modifies this
      ensures CatNext(old(View(ACat(i), owner, cats)), i) == Some(View(ACat(i), owner, cats[i := next]))
    {
      if foodAmount < CAT_EAT_AMOUNT {
        if foodAmount <= MIN_FOOD {
          next := Alarm;
        } else {
          next := CatWait;
        }
      } else {
        foodAmount := foodAmount - CAT_EAT_AMOUNT;
        meals := meals + 1;
        if foodAmount <= MIN_FOOD {
          next := SignalLow;
        } else {
          next := CatUnlock;
        }
      }
    }
  }
}
