/** Runs of a system of threads, whatever the system is.

  A protocol is given by a step function: `step(s, e)` is the state after event `e`,
  or `None` when `e` cannot happen in `s` (a lock that is taken, a semaphore at 0, a
  thread that is asleep). A schedule is a sequence of events, so a statement about all
  schedules is a statement about all interleavings.
 */
module Runs {

  datatype Option<+T> = None | Some(value: T)

  /** The state a schedule leads to, or `None` if some event in it cannot happen. */
  function Exec<S, E>(step: (S, E) -> Option<S>, s: S, schedule: seq<E>): Option<S>
  {
    if schedule == [] then Some(s)
    else
      match step(s, schedule[0])
      case None => None
      case Some(next) => Exec(step, next, schedule[1..])
  }

  /** What every step keeps, every run keeps. */
  lemma {:induction false} Invariant<S(!new), E(!new)>(
      step: (S, E) -> Option<S>, inv: S -> bool, s: S, schedule: seq<E>)
    requires inv(s)
    requires forall x, e :: inv(x) && step(x, e).Some? ==> inv(step(x, e).value)
    requires Exec(step, s, schedule).Some?
    ensures inv(Exec(step, s, schedule).value)
  {
    if schedule != [] {
      Invariant(step, inv, step(s, schedule[0]).value, schedule[1..]);
    }
  }

  /** If every step lowers a measure, a run is no longer than the measure it starts with. */
  lemma {:induction false} Bounded<S(!new), E(!new)>(
      step: (S, E) -> Option<S>, inv: S -> bool, measure: S -> int, s: S, schedule: seq<E>)
    requires inv(s)
    requires forall x, e :: inv(x) && step(x, e).Some? ==>
                              inv(step(x, e).value) && measure(step(x, e).value) < measure(x)
    requires Exec(step, s, schedule).Some?
    ensures |schedule| + measure(Exec(step, s, schedule).value) <= measure(s)
  {
    if schedule != [] {
      Bounded(step, inv, measure, step(s, schedule[0]).value, schedule[1..]);
    }
  }

  /** After the first `i` events of the schedule comes one that `step` takes and `slow` leaves
      out. */
  ghost predicate LeftOut<S(!new), E(!new)>(
      step: (S, E) -> Option<S>, slow: (S, E) -> Option<S>, s: S, schedule: seq<E>, i: nat)
    requires i < |schedule|
  {
    match Exec(step, s, schedule[..i])
    case None => false
    case Some(mid) => step(mid, schedule[i]).Some? && slow(mid, schedule[i]).None?
  }

  /** A run that `slow`, which takes some of the steps of `step`, cannot follow has a step that
      it leaves out. */
  lemma {:induction false} FirstLeftOut<S(!new), E(!new)>(
      step: (S, E) -> Option<S>, slow: (S, E) -> Option<S>, s: S, schedule: seq<E>)
    requires forall x, e :: slow(x, e).Some? ==> slow(x, e) == step(x, e)
    requires Exec(step, s, schedule).Some? && Exec(slow, s, schedule).None?
    ensures exists i :: 0 <= i < |schedule| && LeftOut(step, slow, s, schedule, i)
    decreases |schedule|
  {
    if slow(s, schedule[0]).None? {
      assert LeftOut(step, slow, s, schedule, 0);
    } else {
      var next := step(s, schedule[0]).value;
      FirstLeftOut(step, slow, next, schedule[1..]);
      var i :| 0 <= i < |schedule[1..]| && LeftOut(step, slow, next, schedule[1..], i);
      assert schedule[..i + 1][1..] == schedule[1..][..i];
      assert LeftOut(step, slow, s, schedule, i + 1);
    }
  }

  function Events<M, E>(event: M -> E, moves: seq<M>): seq<E>
  {
    seq(|moves|, i requires 0 <= i < |moves| => event(moves[i]))
  }

  /** A system whose steps are steps of a larger one under another name has runs that are runs
      of the larger one. */
  lemma {:induction false} Relabelled<S(!new), E, M(!new)>(
      step: (S, E) -> Option<S>, next: (S, M) -> Option<S>, event: M -> E, s: S, moves: seq<M>)
    requires forall x, m :: next(x, m).Some? ==> step(x, event(m)) == next(x, m)
    requires Exec(next, s, moves).Some?
    ensures Exec(step, s, Events(event, moves)) == Exec(next, s, moves)
    decreases |moves|
  {
    if moves != [] {
      assert Events(event, moves)[1..] == Events(event, moves[1..]);
      Relabelled(step, next, event, next(s, moves[0]).value, moves[1..]);
    }
  }

  /** `k` turns of one thread. */
  function Turns<E>(t: E, k: nat): seq<E>
  {
    seq(k, _ => t)
  }

  /** One thread, moving alone, takes the system from `s` to `s'`. */
  ghost predicate Alone<S(!new), E>(step: (S, E) -> Option<S>, t: E, s: S, s': S)
  {
    exists k: nat :: Exec(step, s, Turns(t, k)) == Some(s')
  }

  lemma {:induction false} AloneStay<S(!new), E>(step: (S, E) -> Option<S>, t: E, s: S)
    ensures Alone(step, t, s, s)
  {
    assert Exec(step, s, Turns(t, 0)) == Some(s);
  }

  lemma {:induction false} AloneStep<S(!new), E>(step: (S, E) -> Option<S>, t: E, s: S, mid: S, s': S)
    requires step(s, t) == Some(mid) && Alone(step, t, mid, s')
    ensures Alone(step, t, s, s')
  {
    var k: nat :| Exec(step, mid, Turns(t, k)) == Some(s');
    assert Turns(t, k + 1)[1..] == Turns(t, k);
    assert Exec(step, s, Turns(t, k + 1)) == Some(s');
  }

  lemma {:induction false} AloneOn<S(!new), E>(step: (S, E) -> Option<S>, t: E, s: S, mid: S, s': S)
    requires Alone(step, t, s, mid) && Alone(step, t, mid, s')
    ensures Alone(step, t, s, s')
  {
    var k: nat :| Exec(step, s, Turns(t, k)) == Some(mid);
    var l: nat :| Exec(step, mid, Turns(t, l)) == Some(s');
    ExecConcat(step, s, Turns(t, k), Turns(t, l));
    assert Turns(t, k) + Turns(t, l) == Turns(t, k + l);
  }

  /** A schedule may be cut anywhere. */
  lemma {:induction false} ExecConcat<S, E>(step: (S, E) -> Option<S>, s: S, first: seq<E>, second: seq<E>)
    ensures Exec(step, s, first + second) ==
            match Exec(step, s, first)
            case None => None
            case Some(mid) => Exec(step, mid, second)
  {
    if first == [] {
      assert first + second == second;
    } else {
      assert (first + second)[0] == first[0];
      assert (first + second)[1..] == first[1..] + second;
      if step(s, first[0]).Some? {
        ExecConcat(step, step(s, first[0]).value, first[1..], second);
      }
    }
  }

  /** The state after one more event. */
  lemma {:induction false} ExecSplit<S, E>(step: (S, E) -> Option<S>, s: S, schedule: seq<E>, i: nat)
    requires i < |schedule| && Exec(step, s, schedule[..i]).Some?
    ensures Exec(step, s, schedule[..i + 1]) == step(Exec(step, s, schedule[..i]).value, schedule[i])
  {
    var mid := Exec(step, s, schedule[..i]).value;
    assert schedule[..i + 1] == schedule[..i] + [schedule[i]];
    ExecConcat(step, s, schedule[..i], [schedule[i]]);
    assert [schedule[i]][1..] == [];
    if step(mid, schedule[i]).Some? {
      assert Exec(step, step(mid, schedule[i]).value, []) == step(mid, schedule[i]);
    }
  }

  /** Some schedule leads from `s` to `s'`. */
  ghost predicate Reaches<S(!new), E(!new)>(step: (S, E) -> Option<S>, s: S, s': S)
  {
    exists schedule: seq<E> :: Exec(step, s, schedule) == Some(s')
  }

  lemma {:induction false} ReachesStay<S(!new), E(!new)>(step: (S, E) -> Option<S>, s: S)
    ensures Reaches(step, s, s)
  {
    assert Exec(step, s, []) == Some(s);
  }

  lemma {:induction false} ReachesStep<S(!new), E(!new)>(step: (S, E) -> Option<S>, s: S, mid: S, e: E, s': S)
    requires Reaches(step, s, mid) && step(mid, e) == Some(s')
    ensures Reaches(step, s, s')
  {
    assert [e][1..] == [] && Exec(step, mid, [e]) == Some(s');
    ReachesOn(step, s, mid, s');
  }

  lemma {:induction false} AloneReaches<S(!new), E(!new)>(step: (S, E) -> Option<S>, t: E, s: S, s': S)
    requires Alone(step, t, s, s')
    ensures Reaches(step, s, s')
  {
    var k: nat :| Exec(step, s, Turns(t, k)) == Some(s');
  }

  lemma {:induction false} ReachesOn<S(!new), E(!new)>(step: (S, E) -> Option<S>, s: S, mid: S, s': S)
    requires Reaches(step, s, mid) && Reaches(step, mid, s')
    ensures Reaches(step, s, s')
  {
    var first: seq<E> :| Exec(step, s, first) == Some(mid);
    var second: seq<E> :| Exec(step, mid, second) == Some(s');
    ExecConcat(step, s, first, second);
  }
}
