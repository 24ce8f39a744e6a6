/** `pr13task3-1.c`: dining philosophers who lock an even-numbered left fork first and an
  odd-numbered one second. For any number of seats from two up.
 */
module OrderedPhilosophers {
  import opened RoundTable
  import opened Runs
  import opened Tally

  datatype Pc = Thinking | WantFirst | WantSecond | Eating | PutFirst

  /** `forks[f]` is the philosopher who has locked the fork, if any. */
  datatype State = State(forks: seq<Option<nat>>, pcs: seq<Pc>)

  function FirstFork(n: nat, id: nat): (f: nat)
    requires id < n
    ensures f < n
  {
    if id % 2 == 0 then id else Right(n, id)
  }

  function SecondFork(n: nat, id: nat): (f: nat)
    requires id < n
    ensures f < n
  {
    if id % 2 == 0 then Right(n, id) else id
  }

  predicate Table(s: State)
  {
    2 <= |s.forks| == |s.pcs|
  }

  ghost predicate Init(s: State)
  {
    && Table(s)
    && (forall f :: 0 <= f < |s.forks| ==> s.forks[f] == None)
    && forall p :: 0 <= p < |s.pcs| ==> s.pcs[p] == Thinking
  }

  function Step(s: State, p: nat): Option<State>
  {
    if !Table(s) || p >= |s.pcs| then None
    else
      var n := |s.forks|;
      match s.pcs[p]
      case Thinking => Some(s.(pcs := s.pcs[p := WantFirst]))
      case WantFirst => Lock(s, p, FirstFork(n, p), WantSecond)
      case WantSecond => Lock(s, p, SecondFork(n, p), Eating)
      case Eating => Some(State(s.forks[SecondFork(n, p) := None], s.pcs[p := PutFirst]))
      case PutFirst => Some(State(s.forks[FirstFork(n, p) := None], s.pcs[p := Thinking]))
  }

  function Lock(s: State, p: nat, f: nat, next: Pc): Option<State>
    requires p < |s.pcs| && f < |s.forks|
  {
    if s.forks[f].None? then Some(State(s.forks[f := Some(p)], s.pcs[p := next])) else None
  }

  predicate Holds(n: nat, p: nat, pc: Pc, f: nat)
    requires p < n
  {
    || (f == FirstFork(n, p) && (pc == WantSecond || pc == Eating || pc == PutFirst))
    || (f == SecondFork(n, p) && pc == Eating)
  }

  /** The owners recorded in the forks are the philosophers whose code holds them. */
  ghost predicate Inv(s: State)
  {
    && Table(s)
    && (forall f :: 0 <= f < |s.forks| && s.forks[f].Some? ==> OwnedBy(s, f, s.forks[f].value))
    && forall p :: 0 <= p < |s.pcs| ==> Owns(s, p)
  }

  ghost predicate OwnedBy(s: State, f: nat, p: nat)
    requires Table(s)
  {
    p < |s.pcs| && Holds(|s.forks|, p, s.pcs[p], f)
  }

  ghost predicate Owns(s: State, p: nat)
    requires Table(s) && p < |s.pcs|
  {
    && (Holds(|s.forks|, p, s.pcs[p], FirstFork(|s.forks|, p)) ==> s.forks[FirstFork(|s.forks|, p)] == Some(p))
    && (Holds(|s.forks|, p, s.pcs[p], SecondFork(|s.forks|, p)) ==> s.forks[SecondFork(|s.forks|, p)] == Some(p))
  }

  /** The rank of a fork: odd forks above even ones, and with an odd number of seats the last
      fork, which lies next to fork 0, below both. */
  function ForkRank(n: nat, f: nat): (r: nat)
    ensures r <= 2
  {
    if n % 2 == 1 && f == n - 1 then 0 else if f % 2 == 0 then 1 else 2
  }

  lemma ForksAreRanked(n: nat, p: nat)
    requires 2 <= n && p < n
    ensures ForkRank(n, FirstFork(n, p)) < ForkRank(n, SecondFork(n, p))
  {
  }

  /** The others stay as sure of their forks as they were while philosopher `p` takes or puts
      down one that none of them holds. */
  lemma OthersKeepTheirs(s: State, p: nat, f: nat, s': State)
    requires Inv(s) && Table(s') && p < |s.pcs| && f < |s.forks|
    requires |s'.forks| == |s.forks| && s'.forks == s.forks[f := s'.forks[f]] && s'.pcs == s.pcs[p := s'.pcs[p]]
    requires s.forks[f].None? || s.forks[f] == Some(p)
    ensures forall q :: 0 <= q < |s'.pcs| && q != p ==> Owns(s', q)
  {
    forall q | 0 <= q < |s'.pcs| && q != p
      ensures Owns(s', q)
    {
      assert Owns(s, q);
    }
  }

  lemma ThinkingKeepsInv(s: State, p: nat)
    requires Inv(s) && p < |s.pcs| && s.pcs[p] == Thinking
    ensures Step(s, p).Some? && Inv(Step(s, p).value)
  {
    var s' := Step(s, p).value;
    forall q | 0 <= q < |s'.pcs|
      ensures Owns(s', q)
    {
      assert Owns(s, q);
    }
    forall f | 0 <= f < |s'.forks| && s'.forks[f].Some?
      ensures OwnedBy(s', f, s'.forks[f].value)
    {
      assert OwnedBy(s, f, s.forks[f].value);
    }
  }

  lemma TakingKeepsInv(s: State, p: nat)
    requires Inv(s) && p < |s.pcs| && (s.pcs[p] == WantFirst || s.pcs[p] == WantSecond) && Step(s, p).Some?
    ensures Inv(Step(s, p).value)
  {
    var n, s' := |s.forks|, Step(s, p).value;
    ForksAreRanked(n, p);
    assert Owns(s, p);
    OthersKeepTheirs(s, p, if s.pcs[p] == WantFirst then FirstFork(n, p) else SecondFork(n, p), s');
    assert Owns(s', p);
  }

  lemma PuttingKeepsInv(s: State, p: nat)
    requires Inv(s) && p < |s.pcs| && (s.pcs[p] == Eating || s.pcs[p] == PutFirst)
    ensures Step(s, p).Some? && Inv(Step(s, p).value)
  {
    var n, s' := |s.forks|, Step(s, p).value;
    ForksAreRanked(n, p);
    assert Owns(s, p);
    OthersKeepTheirs(s, p, if s.pcs[p] == Eating then SecondFork(n, p) else FirstFork(n, p), s');
    assert Owns(s', p);
    forall f | 0 <= f < n && s'.forks[f].Some?
      ensures OwnedBy(s', f, s'.forks[f].value)
    {
      assert OwnedBy(s, f, s.forks[f].value);
    }
  }

  lemma StepInv(s: State, p: nat)
    requires Inv(s) && Step(s, p).Some?
    ensures Inv(Step(s, p).value)
  {
    match s.pcs[p]
    case Thinking => ThinkingKeepsInv(s, p);
    case WantFirst | WantSecond => TakingKeepsInv(s, p);
    case _ => PuttingKeepsInv(s, p);
  }

  lemma {:induction false} Reachable(s: State, schedule: seq<nat>)
    requires Init(s) && Exec(Step, s, schedule).Some?
    ensures Inv(Exec(Step, s, schedule).value)
  {
    forall x, p | Inv(x) && Step(x, p).Some?
      ensures Inv(Step(x, p).value)
    {
      StepInv(x, p);
    }
    Invariant(Step, Inv, s, schedule);
  }

  /** Neighbours share a fork, so they never eat together. */
  lemma NeighboursNeverEatTogether(s: State, p: nat)
    requires Inv(s) && p < |s.pcs|
    ensures !(s.pcs[p] == Eating && s.pcs[Right(|s.pcs|, p)] == Eating)
  {
    assert Owns(s, p) && Owns(s, Right(|s.pcs|, p));
  }

  // ---------------------------------------------------------------- deadlock

  /** The fork a philosopher stands waiting for. */
  function Wanted(s: State, p: nat): Option<nat>
    requires Table(s) && p < |s.pcs|
  {
    match s.pcs[p]
    case WantFirst => Some(FirstFork(|s.forks|, p))
    case WantSecond => Some(SecondFork(|s.forks|, p))
    case _ => None
  }

  ghost predicate Blocked(s: State, p: nat)
    requires Inv(s) && p < |s.pcs|
  {
    Wanted(s, p).Some? && s.forks[Wanted(s, p).value].Some?
  }

  /** Who holds it. */
  ghost function Holder(s: State, p: nat): (q: nat)
    requires Inv(s) && p < |s.pcs| && Blocked(s, p)
    ensures q < |s.pcs|
  {
    s.forks[Wanted(s, p).value].value
  }

  lemma BlockedIsStuck(s: State, p: nat)
    requires Inv(s) && p < |s.pcs|
    ensures Blocked(s, p) <==> Step(s, p).None?
  {
    ForksAreRanked(|s.forks|, p);
  }

  /** One hop: whoever holds the fork someone waits for is someone else, and waits, if at all,
      for a fork of higher rank. */
  lemma HopClimbs(s: State, p: nat)
    requires Inv(s) && p < |s.pcs| && Blocked(s, p)
    ensures Holder(s, p) != p
    ensures Blocked(s, Holder(s, p)) ==>
              ForkRank(|s.forks|, Wanted(s, p).value) < ForkRank(|s.forks|, Wanted(s, Holder(s, p)).value)
  {
    var n := |s.forks|;
    var f, q := Wanted(s, p).value, Holder(s, p);
    assert OwnedBy(s, f, q) && Owns(s, p);
    ForksAreRanked(n, p);
    ForksAreRanked(n, q);
  }

  /** Following "waits for a fork held by" for up to `hops` hops. */
  ghost function Follow(s: State, p: nat, hops: nat): (q: nat)
    requires Inv(s) && p < |s.pcs|
    ensures q < |s.pcs|
    decreases hops
  {
    if hops == 0 || !Blocked(s, p) then p else Follow(s, Holder(s, p), hops - 1)
  }

  /** Three hops from anyone lead to a philosopher who can step. */
  lemma ThreeHopsToProgress(s: State, p: nat)
    requires Inv(s) && p < |s.pcs|
    ensures Step(s, Follow(s, p, 3)).Some?
  {
    BlockedIsStuck(s, p);
    if Blocked(s, p) {
      HopClimbs(s, p);
      var q := Holder(s, p);
      BlockedIsStuck(s, q);
      if Blocked(s, q) {
        HopClimbs(s, q);
        var r := Holder(s, q);
        BlockedIsStuck(s, r);
        if Blocked(s, r) {
          HopClimbs(s, r);
          BlockedIsStuck(s, Holder(s, r));
          assert Follow(s, r, 1) == Holder(s, r);
        }
        assert Follow(s, q, 2) == Follow(s, r, 1);
      }
      assert Follow(s, p, 3) == Follow(s, q, 2);
    }
  }

  /** In every run: neighbours do not eat together, and three hops from anyone lead to someone
      who can step. */
  lemma {:induction false} EveryRunIsSound(s: State, schedule: seq<nat>, p: nat)
    requires Init(s) && Exec(Step, s, schedule).Some? && p < |Exec(Step, s, schedule).value.pcs|
    ensures var end := Exec(Step, s, schedule).value;
            && Inv(end)
            && !(end.pcs[p] == Eating && end.pcs[Right(|end.pcs|, p)] == Eating)
            && (end.pcs[p] == Eating ==>
                  end.forks[p] == Some(p) && end.forks[Right(|end.forks|, p)] == Some(p))
            && Step(end, Follow(end, p, 3)).Some?
  {
    Reachable(s, schedule);
    assert Owns(Exec(Step, s, schedule).value, p);
    NeighboursNeverEatTogether(Exec(Step, s, schedule).value, p);
    ThreeHopsToProgress(Exec(Step, s, schedule).value, p);
  }

  // ---------------------------------------------------------------- meals

  /** Philosopher `p` eats now and did not before, and holds both forks. */
  predicate Begins(s: State, s': State, p: nat)
  {
    && p < |s.pcs| == |s'.pcs| == |s'.forks| && s.pcs[p] != Eating && s'.pcs[p] == Eating
    && s'.forks[p] == Some(p) && s'.forks[Right(|s'.forks|, p)] == Some(p)
  }

  /** Someone begins to eat. */
  predicate MealBegins(s: State, s': State)
  {
    exists p :: 0 <= p < |s.pcs| && Begins(s, s', p)
  }

  /** The steps with which no meal begins. */
  function Fast(s: State, p: nat): Option<State>
  {
    match Step(s, p)
    case None => None
    case Some(s') => if MealBegins(s, s') then None else Some(s')
  }

  function StepsToHunger(pc: Pc): int
  {
    match pc
    case Eating => 4
    case PutFirst => 3
    case Thinking => 2
    case WantFirst => 1
    case WantSecond => 0
  }

  function TotalToHunger(s: State): int { Sum(StepsToHunger, s.pcs) }

  lemma {:induction false} TotalIsSmall(pcs: seq<Pc>)
    ensures 0 <= Sum(StepsToHunger, pcs) <= 4 * |pcs|
  {
    if pcs != [] {
      TotalIsSmall(pcs[1..]);
    }
  }

  lemma FastStep(s: State, p: nat)
    requires Inv(s) && Fast(s, p).Some?
    ensures Inv(Fast(s, p).value) && TotalToHunger(Fast(s, p).value) < TotalToHunger(s)
  {
    var s' := Fast(s, p).value;
    StepInv(s, p);
    SumUpdate(StepsToHunger, s.pcs, p, s'.pcs[p]);
    if s.pcs[p] == WantSecond {
      assert Owns(s', p);
      assert Begins(s, s', p);
    }
  }

  /** At most four steps per seat pass in which no meal begins, and someone can always step. */
  lemma {:induction false} MealsNeverStop(s: State, schedule: seq<nat>)
    requires Inv(s) && Exec(Fast, s, schedule).Some?
    ensures |schedule| <= 4 * |s.pcs|
    ensures exists p :: Step(Exec(Fast, s, schedule).value, p).Some?
  {
    forall x, p | Inv(x) && Fast(x, p).Some?
      ensures Inv(Fast(x, p).value) && TotalToHunger(Fast(x, p).value) < TotalToHunger(x)
    {
      FastStep(x, p);
    }
    Bounded(Fast, Inv, TotalToHunger, s, schedule);
    Invariant(Fast, Inv, s, schedule);
    var end := Exec(Fast, s, schedule).value;
    TotalIsSmall(s.pcs);
    TotalIsSmall(end.pcs);
    ThreeHopsToProgress(end, 0);
  }

  /** So in every run of more than four steps per seat someone begins to eat, with both forks:
      meals never stop. */
  lemma {:induction false} MealsKeepBeginning(s: State, schedule: seq<nat>)
    requires Inv(s) && Exec(Step, s, schedule).Some? && |schedule| > 4 * |s.pcs|
    ensures exists i :: 0 <= i < |schedule| && MealAt(s, schedule, i)
  {
    if Exec(Fast, s, schedule).Some? {
      MealsNeverStop(s, schedule);
    }
    FirstLeftOut(Step, Fast, s, schedule);
    var i :| 0 <= i < |schedule| && LeftOut(Step, Fast, s, schedule, i);
    ExecSplit(Step, s, schedule, i);
    assert MealAt(s, schedule, i);
  }

  /** Event `i` of the schedule begins a meal. */
  ghost predicate MealAt(s: State, schedule: seq<nat>, i: nat)
    requires i < |schedule|
  {
    var before, after := Exec(Step, s, schedule[..i]), Exec(Step, s, schedule[..i + 1]);
    before.Some? && after.Some? && MealBegins(before.value, after.value)
  }

  /** A meal ends: whoever eats can always put down both forks in two turns, and thinks then. */
  lemma {:induction false} MealEnds(s: State, p: nat)
    requires Inv(s) && p < |s.pcs| && s.pcs[p] == Eating
    ensures Alone(Step, p, s, State(s.forks[p := None][Right(|s.forks|, p) := None], s.pcs[p := Thinking]))
  {
    var n := |s.forks|;
    ForksAreRanked(n, p);
    var mid := State(s.forks[SecondFork(n, p) := None], s.pcs[p := PutFirst]);
    var end := State(mid.forks[FirstFork(n, p) := None], s.pcs[p := Thinking]);
    assert mid.pcs[p := Thinking] == end.pcs;
    assert end.forks == s.forks[p := None][Right(n, p) := None];
    AloneStay(Step, p, end);
    AloneStep(Step, p, mid, end, end);
    AloneStep(Step, p, s, mid, end);
  }

  // ---------------------------------------------------------------- the code

  /** The `forks` array, with the place in `philosopher` at which each thread stands. */
  class Dinner {
    const forks: array<Option<nat>>
    var pcs: seq<Pc>

    constructor (n: nat)
      requires 2 <= n
      ensures fresh(forks) && Init(View()) && |pcs| == n
    {
      forks := new Option<nat>[n](_ => None);
      pcs := seq(n, _ => Thinking);
    }

    ghost function View(): State
      reads this, forks
    {
      State(forks[..], pcs)
    }

    /** One statement of `philosopher(id)` that touches a fork. */
    method Philosopher(id: nat)
      requires Inv(View()) && Step(View(), id).Some?
      modifies this`pcs, forks
      ensures View() == Step(old(View()), id).value
    {
      var leftFork, rightFork := id, (id + 1) % forks.Length;
      RightIsModulo(forks.Length, id);
      var firstFork, secondFork := rightFork, leftFork;
      if id % 2 == 0 {
        firstFork, secondFork := leftFork, rightFork;
      }
      match pcs[id]
      case Thinking =>
        pcs := pcs[id := WantFirst];
      case WantFirst =>
        forks[firstFork] := Some(id);
        pcs := pcs[id := WantSecond];
      case WantSecond =>
        forks[secondFork] := Some(id);
        pcs := pcs[id := Eating];
      case Eating =>
        forks[secondFork] := None;
        pcs := pcs[id := PutFirst];
      case PutFirst =>
        forks[firstFork] := None;
        pcs := pcs[id := Thinking];
    }
  }
}
