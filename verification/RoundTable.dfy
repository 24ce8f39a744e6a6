/** Seats and forks around a table of `n`: fork `i` lies to the left of philosopher `i`, whose
  right fork is the left fork of the next one round.
 */
module RoundTable {

  function Right(n: nat, id: nat): (f: nat)
    requires id < n
    ensures f < n
  {
    if id + 1 < n then id + 1 else 0
  }

  /** `right_fork = (id + 1) % PHILOSOPHERS_COUNT`. */
  lemma RightIsModulo(n: nat, id: nat)
    requires id < n
    ensures Right(n, id) == (id + 1) % n
  {
  }
}
