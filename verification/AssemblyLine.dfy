/** `pr15task1.c`: three workshops make parts, one assembles modules from parts A and B, one
  assembles products from a module and a part C; four semaphores pass the parts on.

  For any number of products.
 */
module AssemblyLine {
  import opened Runs

  datatype Worker = MakerA | MakerB | MakerC | ModuleAssembler | FinalAssembler

  /** Where an assembler stands in its round: waiting for the first part, for the second, or
      with both in hand. */
  datatype Place = First | Second | Both

  /** `madeA`, `madeB`, `madeC`, `modules` and `products` count finished rounds of the five
      threads, out of `target`. */
  datatype State = State(
    target: nat, semA: nat, semB: nat, semC: nat, semModule: nat,
    madeA: nat, madeB: nat, madeC: nat, modules: nat, atModule: Place, products: nat, atFinal: Place)

  ghost predicate Init(s: State)
  {
    && s.semA == s.semB == s.semC == s.semModule == 0
    && s.madeA == s.madeB == s.madeC == s.modules == s.products == 0
    && s.atModule == First && s.atFinal == First
  }

  function Step(s: State, who: Worker): Option<State>
  {
    match who
    case MakerA => if s.madeA < s.target then Some(s.(madeA := s.madeA + 1, semA := s.semA + 1)) else None
    case MakerB => if s.madeB < s.target then Some(s.(madeB := s.madeB + 1, semB := s.semB + 1)) else None
    case MakerC => if s.madeC < s.target then Some(s.(madeC := s.madeC + 1, semC := s.semC + 1)) else None
    case ModuleAssembler =>
      if s.modules >= s.target then None
      else
        (match s.atModule
         case First => if s.semA > 0 then Some(s.(semA := s.semA - 1, atModule := Second)) else None
         case Second => if s.semB > 0 then Some(s.(semB := s.semB - 1, atModule := Both)) else None
         case Both => Some(s.(semModule := s.semModule + 1, modules := s.modules + 1, atModule := First)))
    case FinalAssembler =>
      if s.products >= s.target then None
      else
        (match s.atFinal
         case First => if s.semModule > 0 then Some(s.(semModule := s.semModule - 1, atFinal := Second)) else None
         case Second => if s.semC > 0 then Some(s.(semC := s.semC - 1, atFinal := Both)) else None
         case Both => Some(s.(products := s.products + 1, atFinal := First)))
  }

  function TakenFirst(done: nat, at: Place): nat { if at == First then done else done + 1 }

  function TakenSecond(done: nat, at: Place): nat { if at == Both then done + 1 else done }

  /** Each semaphore is what has been made less what has been taken. */
  ghost predicate Inv(s: State)
  {
    && s.madeA <= s.target && s.madeB <= s.target && s.madeC <= s.target
    && s.modules <= s.target && s.products <= s.target
    && (s.atModule != First ==> s.modules < s.target) && (s.atFinal != First ==> s.products < s.target)
    && s.semA == s.madeA - TakenFirst(s.modules, s.atModule)
    && s.semB == s.madeB - TakenSecond(s.modules, s.atModule)
    && s.semModule == s.modules - TakenFirst(s.products, s.atFinal)
    && s.semC == s.madeC - TakenSecond(s.products, s.atFinal)
  }

  function PlaceRank(at: Place): int { match at case First => 0 case Second => 1 case Both => 2 }

  function StepsLeft(s: State): int
  {
    9 * s.target - s.madeA - s.madeB - s.madeC - 3 * s.modules - PlaceRank(s.atModule)
    - 3 * s.products - PlaceRank(s.atFinal)
  }

  lemma MakerStep(s: State, who: Worker)
    requires Inv(s) && Step(s, who).Some? && (who == MakerA || who == MakerB || who == MakerC)
    ensures Inv(Step(s, who).value) && StepsLeft(Step(s, who).value) < StepsLeft(s)
  {
  }

  lemma ModuleStep(s: State)
    requires Inv(s) && Step(s, ModuleAssembler).Some?
    ensures Inv(Step(s, ModuleAssembler).value) && StepsLeft(Step(s, ModuleAssembler).value) < StepsLeft(s)
  {
  }

  lemma FinalStep(s: State)
    requires Inv(s) && Step(s, FinalAssembler).Some?
    ensures Inv(Step(s, FinalAssembler).value) && StepsLeft(Step(s, FinalAssembler).value) < StepsLeft(s)
  {
  }

  lemma StepInv(s: State, who: Worker)
    requires Inv(s) && Step(s, who).Some?
    ensures Inv(Step(s, who).value) && StepsLeft(Step(s, who).value) < StepsLeft(s)
  {
    match who
    case ModuleAssembler => ModuleStep(s);
    case FinalAssembler => FinalStep(s);
    case _ => MakerStep(s, who);
  }

  ghost predicate InvFor(target: nat, s: State)
  {
    Inv(s) && s.target == target
  }

  lemma StepKeepsTarget(target: nat, s: State, who: Worker)
    requires InvFor(target, s) && Step(s, who).Some?
    ensures InvFor(target, Step(s, who).value) && StepsLeft(Step(s, who).value) < StepsLeft(s)
  {
    StepInv(s, who);
  }

  ghost predicate Stuck(s: State)
  {
    forall who :: Step(s, who).None?
  }

  lemma StuckIsFinished(s: State)
    requires Inv(s) && Stuck(s)
    ensures s.products == s.target
  {
    assert Step(s, MakerA).None? && Step(s, MakerB).None? && Step(s, MakerC).None?;
    assert Step(s, ModuleAssembler).None? && Step(s, FinalAssembler).None?;
  }

  lemma FinishedIsStuck(s: State)
    requires Inv(s) && s.products == s.target
    ensures Stuck(s) && s.semA == s.semB == s.semC == s.semModule == 0
  {
  }

  lemma {:induction false} RunsAreFinite(s: State, schedule: seq<Worker>)
    requires Inv(s) && Exec(Step, s, schedule).Some?
    ensures InvFor(s.target, Exec(Step, s, schedule).value)
    ensures |schedule| + StepsLeft(Exec(Step, s, schedule).value) <= StepsLeft(s)
  {
    var inv := (x: State) => InvFor(s.target, x);
    forall x, who | inv(x) && Step(x, who).Some?
      ensures inv(Step(x, who).value) && StepsLeft(Step(x, who).value) < StepsLeft(x)
    {
      StepKeepsTarget(s.target, x, who);
    }
    Invariant(Step, inv, s, schedule);
    Bounded(Step, inv, StepsLeft, s, schedule);
  }

  /** In every run there are never more products than modules or parts C, nor more modules than
      parts A or B; every run is finite, and it can only end with exactly the target made and
      every semaphore at 0. */
  lemma {:induction false} LineMeetsItsTarget(s: State, schedule: seq<Worker>)
    requires Init(s) && Exec(Step, s, schedule).Some?
    ensures var end := Exec(Step, s, schedule).value;
            && |schedule| <= 9 * s.target
            && end.products <= end.modules && end.products <= end.madeC
            && end.modules <= end.madeA && end.modules <= end.madeB
            && (Stuck(end) <==> end.products == s.target)
            && (Stuck(end) ==> end.semA == end.semB == end.semC == end.semModule == 0)
  {
    RunsAreFinite(s, schedule);
    var end := Exec(Step, s, schedule).value;
    if Stuck(end) {
      StuckIsFinished(end);
    }
    if end.products == s.target {
      FinishedIsStuck(end);
    }
  }

  // ---------------------------------------------------------------- the code

  /** The semaphores, and where the loop of each of the five threads stands. */
  class Line {
    const productsToMake: nat
    var semPartA: nat
    var semPartB: nat
    var semPartC: nat
    var semModule: nat
    var madeA: nat
    var madeB: nat
    var madeC: nat
    var modules: nat
    var atModule: Place
    var products: nat
    var atFinal: Place

    ghost function View(): State
      reads this
    {
      State(productsToMake, semPartA, semPartB, semPartC, semModule,
            madeA, madeB, madeC, modules, atModule, products, atFinal)
    }

    constructor (target: nat)
      ensures Init(View()) && productsToMake == target
    {
      productsToMake := target;
      semPartA, semPartB, semPartC, semModule := 0, 0, 0, 0;
      madeA, madeB, madeC, modules, products := 0, 0, 0, 0, 0;
      atModule, atFinal := First, First;
    }

    /** The next statement of `worker_Module` that touches a semaphore, unless it has finished
        or has to wait. */
    method WorkerModule() returns (moved: bool)
      modifies this
      ensures if moved then Step(old(View()), ModuleAssembler) == Some(View())
              else View() == old(View()) && Step(View(), ModuleAssembler).None?
    {
      if modules >= productsToMake {
        return false;
      }
      moved := true;
      match atModule
      case First =>
        if semPartA == 0 {
          return false;
        }
        semPartA := semPartA - 1;
        atModule := Second;
      case Second =>
        if semPartB == 0 {
          return false;
        }
        semPartB := semPartB - 1;
        atModule := Both;
      case Both =>
        semModule := semModule + 1;
        modules := modules + 1;
        atModule := First;
    }

    /** The next statement of `worker_Final`, likewise. */
    method WorkerFinal() returns (moved: bool)
      modifies this
      ensures if moved then Step(old(View()), FinalAssembler) == Some(View())
              else View() == old(View()) && Step(View(), FinalAssembler).None?
    {
      if products >= productsToMake {
        return false;
      }
      moved := true;
      match atFinal
      case First =>
        if semModule == 0 {
          return false;
        }
        semModule := semModule - 1;
        atFinal := Second;
      case Second =>
        if semPartC == 0 {
          return false;
        }
        semPartC := semPartC - 1;
        atFinal := Both;
      case Both =>
        products := products + 1;
        atFinal := First;
    }

    /** A turn of any of the five threads. */
    method Turn(who: Worker) returns (moved: bool)
      modifies this
      ensures if moved then Step(old(View()), who) == Some(View())
              else View() == old(View()) && Step(View(), who).None?
    {
      match who
      case MakerA =>
        moved := madeA < productsToMake;
        if moved {
          madeA, semPartA := madeA + 1, semPartA + 1;
        }
      case MakerB =>
        moved := madeB < productsToMake;
        if moved {
          madeB, semPartB := madeB + 1, semPartB + 1;
        }
      case MakerC =>
        moved := madeC < productsToMake;
        if moved {
          madeC, semPartC := madeC + 1, semPartC + 1;
        }
      case ModuleAssembler => moved := WorkerModule();
      case FinalAssembler => moved := WorkerFinal();
    }

    /** The turns that the scheduler gives; some of them come to nothing. */
    method Run(picks: seq<Worker>)
      requires Inv(View())
      modifies this
      ensures Inv(View()) && Reaches(Step, old(View()), View())
    {
      ReachesStay(Step, View());
      for i := 0 to |picks|
        invariant Inv(View()) && Reaches(Step, old(View()), View())
      {
        ghost var before := View();
        var moved := Turn(picks[i]);
        if moved {
          TurnIsStep(old(View()), before, picks[i]);
        }
      }
    }

    /** Turns for whoever can use one, until nobody can. */
    method RunOut()
      requires Inv(View())
      modifies this
      ensures Inv(View()) && Reaches(Step, old(View()), View()) && Stuck(View())
    {
      ReachesStay(Step, View());
      var idle := 0;
      while idle < 5
        invariant idle <= 5 && Inv(View()) && Reaches(Step, old(View()), View())
        invariant IdleBelow(View(), idle)
        decreases StepsLeft(View()), 5 - idle
      {
        ghost var before := View();
        var moved := Turn(Nth(idle));
        if moved {
          TurnIsStep(old(View()), before, Nth(idle));
          idle := 0;
        } else {
          IdleOneMore(View(), idle);
          idle := idle + 1;
        }
      }
      AllIdle(View());
    }

    /** The five threads started together and joined: whatever turns the scheduler gives first,
        the line meets its target. */
    method Produce(picks: seq<Worker>)
      requires Init(View())
      modifies this
      ensures Reaches(Step, old(View()), View())
      ensures products == productsToMake
      ensures semPartA == semPartB == semPartC == semModule == 0
    {
      Run(picks);
      ghost var mid := View();
      RunOut();
      ReachesOn(Step, old(View()), mid, View());
      StuckIsFinished(View());
      FinishedIsStuck(View());
    }
  }

  lemma {:induction false} TurnIsStep(start: State, s: State, who: Worker)
    requires Inv(s) && Reaches(Step, start, s) && Step(s, who).Some?
    ensures Inv(Step(s, who).value) && Reaches(Step, start, Step(s, who).value)
    ensures StepsLeft(Step(s, who).value) < StepsLeft(s)
  {
    StepInv(s, who);
    ReachesStep(Step, start, s, who, Step(s, who).value);
  }

  function Nth(k: nat): Worker
  {
    match k
    case 0 => FinalAssembler
    case 1 => ModuleAssembler
    case 2 => MakerC
    case 3 => MakerB
    case _ => MakerA
  }

  ghost predicate IdleBelow(s: State, n: nat)
  {
    forall k :: 0 <= k < n ==> Step(s, Nth(k)).None?
  }

  lemma IdleOneMore(s: State, n: nat)
    requires IdleBelow(s, n) && Step(s, Nth(n)).None?
    ensures IdleBelow(s, n + 1)
  {
  }

  lemma AllIdle(s: State)
    requires IdleBelow(s, 5)
    ensures Stuck(s)
  {
    forall who
      ensures Step(s, who).None?
    {
      NthIsAny(who);
    }
  }

  lemma NthIsAny(who: Worker)
    ensures exists k :: 0 <= k < 5 && Nth(k) == who
  {
    assert Nth(0) == FinalAssembler && Nth(1) == ModuleAssembler;
    assert Nth(2) == MakerC && Nth(3) == MakerB && Nth(4) == MakerA;
  }
}
