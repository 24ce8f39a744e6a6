/** The order of the critical sections of the message queue agrees with real time: a call that
  has returned before another one began has taken effect before it.
 */
module MessageQueueOrder {
  import opened Runs
  import opened MessageQueue
  import opened MessageQueueFifo

  /** What was moved at `m` was moved before what was moved at `m'`. Puts are numbered in their
      own order and gets in theirs; a get tells how many puts went before it. */
  ghost predicate Before(log: History, m: Moved, m': Moved)
  {
    match m
    case Nothing => true
    case PutMoved(_, _, k) =>
      (match m'
       case Nothing => true
       case PutMoved(_, _, k') => k < k'
       case GetMoved(_, _, j') => j' < |log.gets| && k < log.gets[j'].seen)
    case GetMoved(_, _, j) =>
      match m'
      case Nothing => true
      case PutMoved(_, _, k') => j < |log.gets| && log.gets[j].seen <= k'
      case GetMoved(_, _, j') => j < j'
  }

  /** The first `n` calls that returned moved what they did before `m`. */
  ghost predicate After(log: History, n: nat, m: Moved)
  {
    n <= |log.returned| && forall a :: 0 <= a < n ==> Before(log, MovedIn(log.returned[a]), m)
  }

  ghost predicate OrderInv(s: State)
  {
    && (forall j :: 0 <= j < |s.log.gets| ==> s.log.gets[j].seen <= |s.log.puts|)
    && (forall t :: 0 <= t < |s.pcs| ==> After(s.log, Began(s.log, t), MovedBy(s.pcs[t])))
    && forall b :: 0 <= b < |s.log.returned| ==> After(s.log, s.log.returned[b].began, MovedIn(s.log.returned[b]))
  }

  ghost predicate RealTimeInv(s: State)
  {
    ReturnInv(s) && OrderInv(s)
  }

  ghost predicate Extends(log: History, log': History)
  {
    log.puts <= log'.puts && log.gets <= log'.gets && log.returned <= log'.returned
  }

  lemma AfterStays(log: History, log': History, n: nat, m: Moved)
    requires After(log, n, m) && Extends(log, log')
    ensures After(log', n, m)
  {
    forall a | 0 <= a < n
      ensures Before(log', MovedIn(log'.returned[a]), m)
    {
      assert Before(log, MovedIn(log.returned[a]), m);
    }
  }

  /** What is moved now comes after whatever a returned call has moved. */
  lemma NewestIsLast(s: State, t: nat, s': State)
    requires RealTimeInv(s) && MovesOwn(s, t, s') && MovesIt(s, s.pcs[t], s', s'.pcs[t])
    ensures After(s'.log, |s.log.returned|, MovedBy(s'.pcs[t]))
  {
    forall a | 0 <= a < |s.log.returned|
      ensures Before(s'.log, MovedIn(s'.log.returned[a]), MovedBy(s'.pcs[t]))
    {
      assert ReturnOk(s.log, s.log.returned[a]);
    }
  }

  lemma MoverKeepsOrder(s: State, t: nat, s': State)
    requires RealTimeInv(s) && MovesOwn(s, t, s')
    ensures After(s'.log, Began(s'.log, t), MovedBy(s'.pcs[t]))
    ensures Extends(s.log, s'.log)
    ensures forall u :: u != t ==> Began(s'.log, u) == Began(s.log, u)
  {
    assert After(s.log, Began(s.log, t), MovedBy(s.pcs[t]));
    if MovesIt(s, s.pcs[t], s', s'.pcs[t]) {
      NewestIsLast(s, t, s');
    }
  }

  lemma ReturnKeepsOrder(s: State, t: nat, s': State, b: nat)
    requires RealTimeInv(s) && MovesOwn(s, t, s') && Extends(s.log, s'.log) && b < |s'.log.returned|
    ensures After(s'.log, s'.log.returned[b].began, MovedIn(s'.log.returned[b]))
  {
    if b < |s.log.returned| {
      AfterStays(s.log, s'.log, s.log.returned[b].began, MovedIn(s.log.returned[b]));
    } else {
      assert ReturnsIt(s, t, s.pcs[t], s', s'.pcs[t]);
      AfterStays(s.log, s'.log, Began(s.log, t), MovedBy(s.pcs[t]));
    }
  }

  lemma SeenStays(s: State, t: nat, s': State)
    requires OrderInv(s) && MovesOwn(s, t, s')
    ensures forall j :: 0 <= j < |s'.log.gets| ==> s'.log.gets[j].seen <= |s'.log.puts|
  {
  }

  lemma MoveKeepsOrder(s: State, t: nat, s': State)
    requires RealTimeInv(s) && MovesOwn(s, t, s')
    ensures OrderInv(s')
  {
    SeenStays(s, t, s');
    MoverKeepsOrder(s, t, s');
    forall u | 0 <= u < |s'.pcs|
      ensures After(s'.log, Began(s'.log, u), MovedBy(s'.pcs[u]))
    {
      if u != t {
        AfterStays(s.log, s'.log, Began(s.log, u), MovedBy(s.pcs[u]));
      }
    }
    forall b | 0 <= b < |s'.log.returned|
      ensures After(s'.log, s'.log.returned[b].began, MovedIn(s'.log.returned[b]))
    {
      ReturnKeepsOrder(s, t, s', b);
    }
  }

  /** In every run, of two calls of which one returned before the other began, put or get, the
      first has taken effect before the second. */
  lemma {:induction false} EffectsFollowRealTime(s: State, schedule: seq<Event>, a: nat, b: nat)
    requires Init(s) && Exec(Step, s, schedule).Some?
    requires b < |Exec(Step, s, schedule).value.log.returned|
    requires a < Exec(Step, s, schedule).value.log.returned[b].began
    ensures var log := Exec(Step, s, schedule).value.log;
            a < |log.returned| && Before(log, MovedIn(log.returned[a]), MovedIn(log.returned[b]))
  {
    forall x, e | RealTimeInv(x) && Step(x, e).Some?
      ensures RealTimeInv(Step(x, e).value)
    {
      StepMovesOwn(x, e);
      MoveKeepsReturns(x, e.t, Step(x, e).value);
      MoveKeepsOrder(x, e.t, Step(x, e).value);
    }
    Invariant(Step, RealTimeInv, s, schedule);
    var log := Exec(Step, s, schedule).value.log;
    assert After(log, log.returned[b].began, MovedIn(log.returned[b]));
  }
}
