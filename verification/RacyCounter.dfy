/** `pr10t1.c` and the unsafe half of `pr11task3.c`: threads that each read a shared counter,
  add one and write it back, a number of times, with nothing to keep them apart.

  The main result is exact: for any number of threads and rounds, the values a complete run can
  leave in the counter. With at least two threads of at least two rounds each they are those
  from 2 to the number of rounds in all.
 */
module RacyCounter {
  import opened Runs
  import opened Tally

  /** Rounds finished, and the value read by the round in progress. */
  datatype Thread = Thread(done: int, local: Option<int>)

  datatype State = State(counter: int, threads: seq<Thread>, rounds: nat)

  function Start(k: nat, rounds: nat): State
  {
    State(0, seq(k, _ => Thread(0, None)), rounds)
  }

  /** Thread `t` reads the counter or writes back what it read plus one. */
  function Step(s: State, t: nat): Option<State>
  {
    if t >= |s.threads| then None
    else
      match s.threads[t].local
      case None =>
        if s.threads[t].done >= s.rounds then None
        else Some(s.(threads := s.threads[t := s.threads[t].(local := Some(s.counter))]))
      case Some(v) =>
        Some(s.(counter := v + 1, threads := s.threads[t := Thread(s.threads[t].done + 1, None)]))
  }

  ghost predicate Complete(s: State)
  {
    forall t :: 0 <= t < |s.threads| ==> s.threads[t] == Thread(s.rounds, None)
  }

  function Done(th: Thread): int { th.done }

  // ---------------------------------------------------------------- bounds

  ghost predicate ThreadOk(s: State, th: Thread)
  {
    && 0 <= th.done <= s.rounds
    && (th.local.Some? ==>
          && th.done < s.rounds
          && 0 <= th.local.value <= Sum(Done, s.threads)
          && (th.local.value == 0 ==> th.done == 0))
  }

  /** A thread that read 0 did so before any write, its own included; so a counter of 1 can
      only stem from somebody's first round. */
  ghost predicate Inv(s: State)
  {
    && 0 <= s.counter <= Sum(Done, s.threads)
    && (forall t :: 0 <= t < |s.threads| ==> ThreadOk(s, s.threads[t]))
    && (s.counter == 0 ==> forall t :: 0 <= t < |s.threads| ==> s.threads[t].done == 0)
    && (s.counter <= 1 && s.threads != [] && s.rounds >= 2 ==>
          exists t :: 0 <= t < |s.threads| && s.threads[t].done < s.rounds)
  }

  lemma StepInv(s: State, t: nat)
    requires Inv(s) && Step(s, t).Some?
    ensures Inv(Step(s, t).value)
  {
    var s' := Step(s, t).value;
    SumUpdate(Done, s.threads, t, s'.threads[t]);
    assert ThreadOk(s, s.threads[t]);
    if s'.counter <= 1 && s.rounds >= 2 {
      if s.threads[t].local.Some? {
        assert s'.threads[t].done < s'.rounds;
      } else {
        var u :| 0 <= u < |s.threads| && s.threads[u].done < s.rounds;
        assert s'.threads[u].done < s'.rounds;
      }
    }
    forall u | 0 <= u < |s'.threads|
      ensures ThreadOk(s', s'.threads[u])
    {
      assert ThreadOk(s, s.threads[u]);
    }
  }

  ghost predicate InvOf(k: nat, rounds: nat, s: State)
  {
    Inv(s) && |s.threads| == k && s.rounds == rounds
  }

  /** The counter ends at no more than the number of rounds in all, and at no less than 1 if
      there is a round, 2 if every thread makes two. */
  lemma {:induction false} CompleteRunsAreBounded(k: nat, rounds: nat, schedule: seq<nat>)
    requires Exec(Step, Start(k, rounds), schedule).Some?
    requires Complete(Exec(Step, Start(k, rounds), schedule).value)
    ensures 0 <= Exec(Step, Start(k, rounds), schedule).value.counter <= k * rounds
    ensures k >= 1 && rounds >= 1 ==> 1 <= Exec(Step, Start(k, rounds), schedule).value.counter
    ensures k >= 1 && rounds >= 2 ==> 2 <= Exec(Step, Start(k, rounds), schedule).value.counter
  {
    var s := Start(k, rounds);
    SumZero(Done, s.threads);
    assert k >= 1 && rounds >= 2 ==> s.threads[0].done < s.rounds;
    var inv := (x: State) => InvOf(k, rounds, x);
    forall x, t | inv(x) && Step(x, t).Some?
      ensures inv(Step(x, t).value)
    {
      StepInv(x, t);
    }
    Invariant(Step, inv, s, schedule);
    var end := Exec(Step, s, schedule).value;
    SumConstant(Done, end.threads, rounds);
    assert k >= 1 ==> end.threads[0].done == rounds;
  }

  /** A thread on its own reads what it last wrote. */
  ghost predicate Lone(rounds: nat, s: State)
  {
    && |s.threads| == 1 && s.rounds == rounds && s.counter == s.threads[0].done
    && (s.threads[0].local.Some? ==> s.threads[0].local.value == s.counter)
  }

  lemma {:induction false} LoneThreadIsExact(rounds: nat, schedule: seq<nat>)
    requires Exec(Step, Start(1, rounds), schedule).Some?
    requires Complete(Exec(Step, Start(1, rounds), schedule).value)
    ensures Exec(Step, Start(1, rounds), schedule).value.counter == rounds
  {
    var inv := (x: State) => Lone(rounds, x);
    forall x, t | inv(x) && Step(x, t).Some?
      ensures inv(Step(x, t).value)
    {
      assert t == 0;
    }
    Invariant(Step, inv, Start(1, rounds), schedule);
  }

  // ---------------------------------------------------------------- schedules

  /** The schedule in which the threads of `ts` in turn make one whole round each. */
  function Whole(ts: seq<nat>): seq<nat>
  {
    if ts == [] then [] else [ts[0], ts[0]] + Whole(ts[1..])
  }

  /** How many of the rounds in `ts` are thread `t`'s. */
  function Count(t: nat, ts: seq<nat>): int
  {
    Sum<nat>(OfThread(t), ts)
  }

  function OfThread(t: nat): nat -> int
  {
    (u: nat) => if u == t then 1 else 0
  }

  ghost predicate Room(s: State, ts: seq<nat>)
  {
    forall t :: t in ts ==>
                  t < |s.threads| && s.threads[t].local == None && s.threads[t].done + Count(t, ts) <= s.rounds
  }

  /** What whole rounds do: nothing is lost. */
  ghost predicate After(s: State, ts: seq<nat>, s': State)
  {
    && s'.counter == s.counter + |ts| && s'.rounds == s.rounds && |s'.threads| == |s.threads|
    && forall i :: 0 <= i < |s.threads| ==>
         s'.threads[i] == Thread(s.threads[i].done + Count(i, ts), s.threads[i].local)
  }

  lemma CountNonNegative(v: nat, ts: seq<nat>)
    ensures Count(v, ts) >= 0
  {
    SumNonNegative(OfThread(v), ts);
  }

  lemma {:induction false} OneRound(s: State, t: nat)
    requires t < |s.threads| && s.threads[t].local == None && s.threads[t].done < s.rounds
    ensures Exec(Step, s, [t, t]) ==
            Some(State(s.counter + 1, s.threads[t := Thread(s.threads[t].done + 1, None)], s.rounds))
  {
    var mid := Step(s, t).value;
    assert [t, t][1..] == [t];
    assert Exec(Step, mid, [t]) == Some(Step(mid, t).value);
    assert mid.threads[t := Thread(s.threads[t].done + 1, None)] == s.threads[t := Thread(s.threads[t].done + 1, None)];
  }

  lemma {:induction false} WholeRounds(s: State, ts: seq<nat>)
    requires Room(s, ts)
    decreases ts
    ensures Exec(Step, s, Whole(ts)).Some? && After(s, ts, Exec(Step, s, Whole(ts)).value)
  {
    if ts != [] {
      var t, rest := ts[0], ts[1..];
      CountNonNegative(t, rest);
      assert t in ts && Count(t, ts) == OfThread(t)(t) + Count(t, rest);
      OneRound(s, t);
      var s1 := Exec(Step, s, [t, t]).value;
      forall u | u in rest
        ensures u < |s1.threads| && s1.threads[u].local == None && s1.threads[u].done + Count(u, rest) <= s1.rounds
      {
        assert u in ts;
        assert Count(u, ts) == OfThread(u)(t) + Count(u, rest);
      }
      WholeRounds(s1, rest);
      ExecConcat(Step, s, [t, t], Whole(rest));
    }
  }

  lemma CountOfTurns(v: nat, t: nat, times: nat)
    ensures Count(v, Turns<nat>(t, times)) == if v == t then times else 0
  {
    SumConstant(OfThread(v), Turns<nat>(t, times), if v == t then 1 else 0);
  }

  /** All the rounds of the threads from 2 to k - 1. */
  function Others(k: nat, rounds: nat): seq<nat>
  {
    if k <= 2 then [] else Others(k - 1, rounds) + Turns<nat>(k - 1, rounds)
  }

  lemma {:induction false} OthersAre(k: nat, rounds: nat, v: nat)
    requires k >= 2
    ensures |Others(k, rounds)| == (k - 2) * rounds
    ensures Count(v, Others(k, rounds)) == if 2 <= v < k then rounds else 0
  {
    if k > 2 {
      OthersAre(k - 1, rounds, v);
      SumConcat(OfThread(v), Others(k - 1, rounds), Turns<nat>(k - 1, rounds));
      CountOfTurns(v, k - 1, rounds);
      assert (k - 2) * rounds == (k - 3) * rounds + rounds;
    }
  }

  /** Every round but one of thread 0 and one of thread 1. */
  function Rest(k: nat, rounds: nat): seq<nat>
    requires rounds >= 1
  {
    Turns<nat>(1, rounds - 1) + Others(k, rounds) + Turns<nat>(0, rounds - 1)
  }

  lemma RestIs(k: nat, rounds: nat, v: nat)
    requires k >= 2 && rounds >= 1
    ensures |Rest(k, rounds)| == k * rounds - 2
    ensures Count(v, Rest(k, rounds)) == if v < 2 then rounds - 1 else if v < k then rounds else 0
  {
    OthersAre(k, rounds, v);
    var front := Turns<nat>(1, rounds - 1) + Others(k, rounds);
    SumConcat(OfThread(v), Turns<nat>(1, rounds - 1), Others(k, rounds));
    SumConcat(OfThread(v), front, Turns<nat>(0, rounds - 1));
    CountOfTurns(v, 1, rounds - 1);
    CountOfTurns(v, 0, rounds - 1);
    assert k * rounds == (k - 2) * rounds + 2 * rounds;
  }

  /** Where the rounds swallowed by thread 0 end and those swallowed by thread 1 begin. */
  function Cut(k: nat, rounds: nat, kept: nat): nat
    requires rounds >= 1 && kept <= |Rest(k, rounds)|
  {
    var zeros := |Rest(k, rounds)| - (rounds - 1);
    if kept < zeros then zeros else kept
  }

  /** Thread `t` reads, the threads of `victims` make whole rounds, thread `t` overwrites. */
  function Theft(t: nat, victims: seq<nat>): seq<nat>
  {
    [t] + Whole(victims) + [t]
  }

  /** Thread 0 steals from the others, then thread 1 from thread 0; then `kept` rounds run
      undisturbed. */
  function LossySchedule(k: nat, rounds: nat, kept: nat): seq<nat>
    requires rounds >= 1 && kept <= |Rest(k, rounds)|
  {
    var rest := Rest(k, rounds);
    var cut := Cut(k, rounds, kept);
    Theft(0, rest[kept..cut]) + Theft(1, rest[cut..]) + Whole(rest[..kept])
  }

  lemma {:induction false} Extend(s: State, first: seq<nat>, mid: State, second: seq<nat>)
    requires Exec(Step, s, first) == Some(mid) && Exec(Step, mid, second).Some?
    ensures Exec(Step, s, first + second) == Exec(Step, mid, second)
  {
    ExecConcat(Step, s, first, second);
  }

  /** All the rounds made while a thread stands between its read and its write are lost. */
  lemma {:induction false} TheftLosesTheRest(s: State, t: nat, victims: seq<nat>)
    requires t < |s.threads| && t !in victims && s.threads[t].local == None && s.threads[t].done < s.rounds
    requires Room(s, victims)
    ensures var end := Exec(Step, s, Theft(t, victims));
            && end.Some? && end.value.counter == s.counter + 1
            && end.value.rounds == s.rounds && |end.value.threads| == |s.threads|
            && forall i :: 0 <= i < |s.threads| ==>
                 var done := s.threads[i].done + Count(i, victims) + if i == t then 1 else 0;
                 end.value.threads[i] == Thread(done, s.threads[i].local)
  {
    var s1 := Step(s, t).value;
    assert Exec(Step, s, [t]) == Some(s1);
    assert Room(s1, victims);
    WholeRounds(s1, victims);
    var s2 := Exec(Step, s1, Whole(victims)).value;
    Extend(s, [t], s1, Whole(victims));
    NotIn(t, victims);
    assert s2.threads[t].local == Some(s.counter);
    assert Exec(Step, s2, [t]) == Some(Step(s2, t).value);
    Extend(s, [t] + Whole(victims), s2, [t]);
  }

  lemma Split(k: nat, rounds: nat, kept: nat, v: nat)
    requires k >= 2 && rounds >= 1 && kept <= |Rest(k, rounds)|
    ensures var rest, cut := Rest(k, rounds), Cut(k, rounds, kept);
            Count(v, rest[kept..cut]) + Count(v, rest[cut..]) + Count(v, rest[..kept]) == Count(v, rest)
  {
    var rest, cut := Rest(k, rounds), Cut(k, rounds, kept);
    assert rest == rest[..kept] + (rest[kept..cut] + rest[cut..]);
    SumConcat(OfThread(v), rest[..kept], rest[kept..cut] + rest[cut..]);
    SumConcat(OfThread(v), rest[kept..cut], rest[cut..]);
  }

  lemma NotIn(v: nat, ts: seq<nat>)
    requires v !in ts
    ensures Count(v, ts) == 0
  {
    SumZero(OfThread(v), ts);
  }

  lemma {:induction false} OthersAreFromTwo(k: nat, rounds: nat, i: nat)
    requires i < |Others(k, rounds)|
    ensures Others(k, rounds)[i] >= 2
  {
    if i < |Others(k - 1, rounds)| {
      OthersAreFromTwo(k - 1, rounds, i);
    }
  }

  /** The stolen rounds are not the thief's own. */
  lemma VictimsAreOthers(k: nat, rounds: nat, kept: nat)
    requires k >= 2 && rounds >= 1 && kept <= |Rest(k, rounds)|
    ensures 0 !in Rest(k, rounds)[kept..Cut(k, rounds, kept)]
    ensures 1 !in Rest(k, rounds)[Cut(k, rounds, kept)..]
  {
    var rest, others := Rest(k, rounds), Others(k, rounds);
    forall i | 0 <= i < |rest|
      ensures if i < |rest| - (rounds - 1) then rest[i] != 0 else rest[i] == 0
    {
      if rounds - 1 <= i < rounds - 1 + |others| {
        OthersAreFromTwo(k, rounds, i - (rounds - 1));
      }
    }
  }

  /** The rounds of thread `v` in the three parts of the schedule. */
  lemma Shares(k: nat, rounds: nat, kept: nat, v: nat)
    requires k >= 2 && rounds >= 1 && kept <= |Rest(k, rounds)|
    ensures var rest, cut := Rest(k, rounds), Cut(k, rounds, kept);
            var x, y, z := Count(v, rest[kept..cut]), Count(v, rest[cut..]), Count(v, rest[..kept]);
            && x >= 0 && y >= 0 && z >= 0
            && x + y + z == if v < 2 then rounds - 1 else if v < k then rounds else 0
  {
    var rest, cut := Rest(k, rounds), Cut(k, rounds, kept);
    Split(k, rounds, kept, v);
    RestIs(k, rounds, v);
    CountNonNegative(v, rest[kept..cut]);
    CountNonNegative(v, rest[cut..]);
    CountNonNegative(v, rest[..kept]);
  }

  lemma RoomFor(s: State, ts: seq<nat>)
    requires forall i: nat :: i < |s.threads| ==>
               s.threads[i].local == None && s.threads[i].done + Count(i, ts) <= s.rounds
    requires forall v: nat :: v >= |s.threads| ==> Count(v, ts) == 0
    ensures Room(s, ts)
  {
    forall t | t in ts
      ensures t < |s.threads|
    {
      var i :| 0 <= i < |ts| && ts[i] == t;
      SumBound(OfThread(t), ts, i);
      assert Count(t, ts) >= 1;
    }
  }

  /** The schedule `LossySchedule` is a complete run, and it leaves 2 plus the rounds kept. */
  lemma {:induction false} LossyRun(k: nat, rounds: nat, kept: nat)
    requires k >= 2 && rounds >= 1 && kept <= |Rest(k, rounds)|
    ensures var end := Exec(Step, Start(k, rounds), LossySchedule(k, rounds, kept));
            end.Some? && Complete(end.value) && end.value.counter == 2 + kept
  {
    var rest, cut := Rest(k, rounds), Cut(k, rounds, kept);
    var xs, ys, zs := rest[kept..cut], rest[cut..], rest[..kept];
    VictimsAreOthers(k, rounds, kept);
    var s := Start(k, rounds);
    forall v: nat
      ensures (v < k ==> Count(v, xs) <= if v < 2 then rounds - 1 else rounds) && (v >= k ==> Count(v, xs) == 0)
    {
      Shares(k, rounds, kept, v);
    }
    RoomFor(s, xs);
    TheftLosesTheRest(s, 0, xs);
    var s1 := Exec(Step, s, Theft(0, xs)).value;
    forall v: nat
      ensures (v < k ==> s1.threads[v].done + Count(v, ys) <= rounds) && (v >= k ==> Count(v, ys) == 0)
    {
      Shares(k, rounds, kept, v);
    }
    Shares(k, rounds, kept, 1);
    RoomFor(s1, ys);
    TheftLosesTheRest(s1, 1, ys);
    var s2 := Exec(Step, s1, Theft(1, ys)).value;
    Extend(s, Theft(0, xs), s1, Theft(1, ys));
    forall v: nat
      ensures (v < k ==> s2.threads[v].done + Count(v, zs) == rounds) && (v >= k ==> Count(v, zs) == 0)
    {
      Shares(k, rounds, kept, v);
    }
    RoomFor(s2, zs);
    WholeRounds(s2, zs);
    Extend(s, Theft(0, xs) + Theft(1, ys), s2, Whole(zs));
  }

  /** Nobody disturbs anybody: `k` threads one after the other. */
  lemma {:induction false} UndisturbedRun(k: nat, rounds: nat)
    requires k <= 1 || rounds == 0
    ensures var end := Exec(Step, Start(k, rounds), Whole(Turns<nat>(0, k * rounds)));
            end.Some? && Complete(end.value) && end.value.counter == k * rounds
  {
    var s := Start(k, rounds);
    var all := Turns<nat>(0, k * rounds);
    forall v: nat
      ensures Count(v, all) == if v == 0 then k * rounds else 0
    {
      CountOfTurns(v, 0, k * rounds);
    }
    if k == 1 {
      RoomFor(s, all);
      WholeRounds(s, all);
    } else {
      assert k == 0 || rounds == 0;
      assert k * rounds == 0;
      assert Exec(Step, s, []) == Some(s);
    }
  }

  /** Everybody's only round falls between the read and the write of thread 0. */
  lemma {:induction false} LoneSurvivor(k: nat)
    requires k >= 2
    ensures var end := Exec(Step, Start(k, 1), Theft(0, [1] + Others(k, 1)));
            end.Some? && Complete(end.value) && end.value.counter == 1
  {
    var s := Start(k, 1);
    var others := [1] + Others(k, 1);
    forall v: nat
      ensures Count(v, others) == if 1 <= v < k then 1 else 0
    {
      OthersAre(k, 1, v);
      assert others[1..] == Others(k, 1);
    }
    forall i | 0 <= i < |Others(k, 1)|
      ensures Others(k, 1)[i] != 0
    {
      OthersAreFromTwo(k, 1, i);
    }
    RoomFor(s, others);
    TheftLosesTheRest(s, 0, others);
  }

  /** Some complete run leaves this value. */
  ghost predicate CanEndAt(k: nat, rounds: nat, value: int)
  {
    exists schedule: seq<nat> :: Leaves(k, rounds, schedule, value)
  }

  ghost predicate Leaves(k: nat, rounds: nat, schedule: seq<nat>, value: int)
  {
    var end := Exec(Step, Start(k, rounds), schedule);
    end.Some? && Complete(end.value) && end.value.counter == value
  }

  /** The least value a complete run can leave. */
  function Least(k: nat, rounds: nat): nat
  {
    if k <= 1 || rounds == 0 then k * rounds else if rounds == 1 then 1 else 2
  }

  /** The values complete runs can leave in the counter, exactly. */
  lemma {:induction false} FinalValues(k: nat, rounds: nat, value: int)
    ensures CanEndAt(k, rounds, value) <==> Least(k, rounds) <= value <= k * rounds
  {
    forall schedule: seq<nat> | Leaves(k, rounds, schedule, value)
      ensures Least(k, rounds) <= value <= k * rounds
    {
      CompleteRunsAreBounded(k, rounds, schedule);
      if k == 1 {
        LoneThreadIsExact(rounds, schedule);
      }
      assert k == 0 || rounds == 0 ==> k * rounds == 0;
    }
    if Least(k, rounds) <= value <= k * rounds {
      if k <= 1 || rounds == 0 {
        UndisturbedRun(k, rounds);
        assert Leaves(k, rounds, Whole(Turns<nat>(0, k * rounds)), value);
      } else if value == 1 {
        LoneSurvivor(k);
        assert Leaves(k, rounds, Theft(0, [1] + Others(k, 1)), value);
      } else {
        RestIs(k, rounds, 0);
        LossyRun(k, rounds, value - 2);
        assert Leaves(k, rounds, LossySchedule(k, rounds, value - 2), value);
      }
    }
  }

  /** No increment is ever lost exactly if there is nobody to lose it to, or nothing to lose. */
  lemma {:induction false} NothingLostIff(k: nat, rounds: nat)
    ensures (forall value :: CanEndAt(k, rounds, value) ==> value == k * rounds) <==> k <= 1 || rounds == 0
  {
    forall value
      ensures CanEndAt(k, rounds, value) <==> Least(k, rounds) <= value <= k * rounds
    {
      FinalValues(k, rounds, value);
    }
    if k >= 2 && rounds >= 1 {
      assert k * rounds >= 2 * rounds;
      assert CanEndAt(k, rounds, Least(k, rounds));
    }
  }

  // ---------------------------------------------------------------- the code

  class Counter {
    var cntr: int

    constructor ()
      ensures cntr == 0
    {
      cntr := 0;
    }

    /** `increment_counter` in a process that nobody disturbs. */
    method IncrementCounter(totalCount: nat)
      modifies this
      ensures cntr == old(cntr) + totalCount
    {
      for i := 0 to totalCount
        invariant cntr == old(cntr) + i
      {
        var local := cntr;
        local := local + 1;
        cntr := local;
      }
    }
  }
}
