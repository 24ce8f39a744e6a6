/** A prime between 46340 * 46340 and INT_MAX, on which the trial division of `pr5t4.c` leaves
  the range of `int`.

  Some fifty thousand trial divisions are more than a proof should make. This one goes by powers
  instead, as Pocklington's criterion does: some power with a prime exponent q is 1 modulo n, of
  a base that less 1 has an inverse. If a d below q divides n, the powers of the base modulo d
  repeat with a period below q; together with the period q this leaves the period 1, so the base
  less 1 is 0 modulo d, and d divides 1.
 */
module LargePrime {
  import opened Composites

  // ---------------------------------------------------------------- remainders

  lemma RemainderIs(x: int, m: int, k: int, r: int)
    requires m > 0 && x == m * k + r && 0 <= r < m
    ensures x % m == r
  {
    var d := k - x / m;
    assert m * d == x % m - r;
    MulGrows(m, d);
  }

  lemma AddMultiple(m: int, k: int, r: int)
    requires m > 0
    ensures (m * k + r) % m == r % m
  {
    var q := r / m;
    assert m * k + r == m * (k + q) + r % m;
    RemainderIs(m * k + r, m, k + q, r % m);
  }

  function Times(x: int, y: int, m: int): (z: int)
    requires m > 0
    ensures 0 <= z < m
  {
    (x * y) % m
  }

  lemma TimesRemainder(x: int, y: int, m: int)
    requires m > 0
    ensures Times(x % m, y, m) == Times(x, y, m) == Times(y, x, m)
  {
    var q, r := x / m, x % m;
    assert x * y == m * (q * y) + r * y;
    AddMultiple(m, q * y, r * y);
  }

  lemma MulAssociates(x: int, y: int, z: int)
    ensures (x * y) * z == (y * z) * x
  {
  }

  lemma TimesCommutes(x: int, y: int, m: int)
    requires m > 0
    ensures Times(x, y, m) == Times(y, x, m)
  {
  }

  lemma TimesAssociates(x: int, y: int, z: int, m: int)
    requires m > 0
    ensures Times(Times(x, y, m), z, m) == Times(x, Times(y, z, m), m)
  {
    var p, q := x * y, y * z;
    calc {
      Times(p % m, z, m);
      { TimesRemainder(p, z, m); }
      Times(p, z, m);
      { MulAssociates(x, y, z); }
      Times(q, x, m);
      { TimesRemainder(q, x, m); }
      Times(q % m, x, m);
      { TimesCommutes(q % m, x, m); }
      Times(x, q % m, m);
    }
  }

  // ---------------------------------------------------------------- powers

  /** `a` to the power `e`, modulo `m`. */
  function Power(a: int, e: nat, m: int): (z: int)
    requires m > 1
    ensures 0 <= z < m
  {
    if e == 0 then 1 else Times(a, Power(a, e - 1, m), m)
  }

  lemma {:induction false} PowerOfSum(a: int, x: nat, y: nat, m: int)
    requires m > 1
    ensures Power(a, x + y, m) == Times(Power(a, x, m), Power(a, y, m), m)
  {
    if x == 0 {
      RemainderIs(Power(a, y, m), m, 0, Power(a, y, m));
    } else {
      PowerOfSum(a, x - 1, y, m);
      TimesAssociates(a, Power(a, x - 1, m), Power(a, y, m), m);
    }
  }

  lemma TimesModDivisor(x: int, y: int, d: int, k: int)
    requires d > 0 && k > 0
    ensures d * k > 0 && Times(x, y, d * k) % d == Times(x, y, d)
  {
    MulGrows(d, k);
    var n := d * k;
    var q := (x * y) / n;
    assert x * y == d * (k * q) + (x * y) % n;
    AddMultiple(d, k * q, (x * y) % n);
  }

  lemma {:induction false} PowerModDivisor(a: int, e: nat, d: int, k: int)
    requires d > 1 && k > 0
    ensures d * k > 1 && Power(a, e, d * k) % d == Power(a, e, d)
  {
    MulGrows(d, k);
    var n := d * k;
    if e == 0 {
      RemainderIs(1, d, 0, 1);
    } else {
      PowerModDivisor(a, e - 1, d, k);
      TimesModDivisor(a, Power(a, e - 1, n), d, k);
      TimesRemainder(Power(a, e - 1, n), a, d);
      TimesRemainder(Power(a, e - 1, d), a, d);
    }
  }

  /** One squaring up, from x for the exponent e to y for 2e or, with a factor a, 2e + 1;
      `k` is the quotient. */
  predicate Follows(a: int, m: int, e: nat, x: int, high: nat, y: int, k: int)
  {
    && 0 <= y < m
    && if high == 2 * e then x * x == m * k + y else high == 2 * e + 1 && a * (x * x) == m * k + y
  }

  /** `p` holds at the bottom and goes up. */
  ghost predicate Climbs(a: int, m: int, p: (nat, int) -> bool)
  {
    && p(1, a)
    && forall e, x, high, y, k {:trigger Follows(a, m, e, x, high, y, k)} ::
         p(e, x) && Follows(a, m, e, x, high, y, k) ==> p(high, y)
  }

  /** Squaring leads up to `x` for the exponent `e`. */
  ghost predicate Reached(a: int, m: int, e: nat, x: int)
  {
    forall p: (nat, int) -> bool :: Climbs(a, m, p) ==> p(e, x)
  }

  lemma OddIsPower(a: int, m: int, e: nat, x: int)
    requires m > 1 && Power(a, e, m) == x
    ensures Power(a, 2 * e + 1, m) == Times(a, x * x, m)
  {
    PowerOfSum(a, e, e, m);
    TimesRemainder(x * x, a, m);
    TimesRemainder(Times(x, x, m), a, m);
  }

  lemma FollowsIsPower(a: int, m: int, e: nat, x: int, high: nat, y: int, k: int)
    requires m > 1 && Power(a, e, m) == x && Follows(a, m, e, x, high, y, k)
    ensures Power(a, high, m) == y
  {
    if high == 2 * e {
      PowerOfSum(a, e, e, m);
      RemainderIs(x * x, m, k, y);
    } else {
      OddIsPower(a, m, e, x);
      RemainderIs(a * (x * x), m, k, y);
    }
  }

  lemma ReachedIsPower(a: int, m: int, e: nat, x: int)
    requires m > 1 && 0 <= a < m && Reached(a, m, e, x)
    ensures Power(a, e, m) == x
  {
    var p := (e: nat, x: int) => Power(a, e, m) == x;
    assert Power(a, 0, m) == 1;
    RemainderIs(a, m, 0, a);
    forall e: nat, x, high: nat, y, k | p(e, x) && Follows(a, m, e, x, high, y, k)
      ensures p(high, y)
    {
      FollowsIsPower(a, m, e, x, high, y, k);
    }
    assert Climbs(a, m, p);
  }

  // ---------------------------------------------------------------- periods

  predicate Period(a: int, e: nat, m: int)
    requires m > 1
  {
    Power(a, e, m) == 1
  }

  lemma {:induction false} PeriodLess(a: int, x: nat, y: nat, m: int)
    requires m > 1 && Period(a, x, m) && Period(a, x + y, m)
    ensures Period(a, y, m)
  {
    PowerOfSum(a, x, y, m);
    RemainderIs(Power(a, y, m), m, 0, Power(a, y, m));
  }

  lemma {:induction false} PeriodTimes(a: int, x: nat, k: nat, m: int)
    requires m > 1 && Period(a, x, m)
    ensures Period(a, x * k, m)
  {
    if k > 0 {
      PeriodTimes(a, x, k - 1, m);
      assert x * k == x + x * (k - 1);
      PowerOfSum(a, x, x * (k - 1), m);
      RemainderIs(1, m, 0, 1);
    }
  }

  /** More than `m` numbers below `m`: one occurs twice. */
  lemma {:induction false} Repeats(values: seq<int>, m: nat)
    requires |values| > m && forall i :: 0 <= i < |values| ==> 0 <= values[i] < m
    ensures exists i, j :: 0 <= i < j < |values| && values[i] == values[j]
    decreases m
  {
    var last := |values| - 1;
    assert 0 <= values[last] < m;
    if exists i :: 0 <= i < last && values[i] == values[last] {
    } else {
      var v := values[last];
      var rest := seq(last, i requires 0 <= i < last => if values[i] < v then values[i] else values[i] - 1);
      Repeats(rest, m - 1);
      var i, j :| 0 <= i < j < |rest| && rest[i] == rest[j];
      assert values[i] == values[j];
    }
  }

  /** There is a period no larger than the modulus, if there is one at all. */
  lemma {:induction false} SmallPeriod(a: int, m: nat, period: nat)
    requires m > 1 && period > 0 && Period(a, period, m)
    ensures exists e :: 1 <= e <= m && Period(a, e, m)
  {
    var powers := seq(m + 1, i requires 0 <= i => Power(a, i, m));
    Repeats(powers, m);
    var i, j :| 0 <= i < j < |powers| && powers[i] == powers[j];
    MulMonotone(1, period, i);
    var back := period * i - i;
    PowerOfSum(a, back, i, m);
    PowerOfSum(a, back, j, m);
    PeriodTimes(a, period, i, m);
    assert back + i == period * i && back + j == period * i + (j - i);
    PeriodLess(a, period * i, j - i, m);
  }

  ghost predicate Prime(q: int)
  {
    q >= 2 && !Composite(q)
  }

  lemma PrimeHasNoDivisor(q: int, y: int)
    requires Prime(q) && 2 <= y < q
    ensures q % y != 0
  {
    assert q % y == 0 ==> Product(y, q / y) == q;
  }

  /** A prime period and a smaller one leave only the period 1. */
  lemma {:induction false} PeriodsLeaveOne(a: int, q: nat, y: nat, m: int)
    requires m > 1 && Prime(q) && 1 <= y < q && Period(a, y, m) && Period(a, q, m)
    ensures Period(a, 1, m)
    decreases y
  {
    if y > 1 {
      PrimeHasNoDivisor(q, y);
      var k, rest := q / y, q % y;
      assert q == y * k + rest;
      PeriodTimes(a, y, k, m);
      PeriodLess(a, y * k, rest, m);
      PeriodsLeaveOne(a, q, rest, m);
    }
  }

  /** The base less 1 is not 0 modulo a divisor, if it has an inverse. */
  lemma BaseIsNotOne(d: int, k: int, a: int, inverse: int)
    requires d >= 2 && k >= 1 && d * k > 1 && Times(inverse, a - 1, d * k) == 1
    ensures Power(a, 1, d) != 1
  {
    TimesModDivisor(inverse, a - 1, d, k);
    RemainderIs(1, d, 0, 1);
    assert Power(a, 0, d) == 1;
    if Times(a, 1, d) == 1 {
      var h := a / d;
      assert inverse * (a - 1) == d * (inverse * h);
      RemainderIs(inverse * (a - 1), d, inverse * h, 0);
    }
  }

  /** So nothing below the prime exponent divides. */
  lemma {:induction false} NoDivisorBelowExponent(d: int, k: int, q: nat, a: int, inverse: int)
    requires 2 <= d < q && k >= 1 && Prime(q)
    requires d * k > 1 && Power(a, q, d * k) == 1
    ensures Times(inverse, a - 1, d * k) != 1
  {
    PowerModDivisor(a, q, d, k);
    RemainderIs(1, d, 0, 1);
    SmallPeriod(a, d, q);
    var e :| 1 <= e <= d && Period(a, e, d);
    PeriodsLeaveOne(a, q, e, d);
    if Times(inverse, a - 1, d * k) == 1 {
      BaseIsNotOne(d, k, a, inverse);
    }
  }

  lemma {:induction false} NoDivisorBelowPrime(n: int, d: int, q: nat, a: int, inverse: int)
    requires n > 1 && Power(a, q, n) == 1 && Times(inverse, a - 1, n) == 1
    requires 2 <= d < q && Prime(q)
    ensures n % d != 0
  {
    if n % d == 0 {
      assert n == d * (n / d);
      NoDivisorBelowExponent(d, n / d, q, a, inverse);
    }
  }

  /** The criterion. */
  lemma {:induction false} PrimeByPowers(n: int, q: nat, a: int, inverse: int)
    requires n > 1 && 0 <= a < n && Reached(a, n, q, 1)
    requires Prime(q) && q * q > n && Times(inverse, a - 1, n) == 1
    ensures Prime(n)
  {
    ReachedIsPower(a, n, q, 1);
    assert NoDivisorBelow(n, q) by {
      forall d | 2 <= d < q
        ensures n % d != 0
      {
        NoDivisorBelowPrime(n, d, q, a, inverse);
      }
    }
    SmallDivisor(n, q);
  }

  // ---------------------------------------------------------------- the input

  lemma SmallPrime()
    ensures Prime(239)
  {
    assert NoDivisorBelow(239, 16) by {
      forall d | 2 <= d < 16
        ensures 239 % d != 0
      {
        assert d == 2 || d == 3 || d == 4 || d == 5 || d == 6 || d == 7 || d == 8
               || d == 9 || d == 10 || d == 11 || d == 12 || d == 13 || d == 14 || d == 15;
      }
    }
    SmallDivisor(239, 16);
  }

  lemma MiddleLadder(p: (nat, int) -> bool)
    requires Climbs(109, 48757, p)
    ensures p(239, 1)
  {
    assert Follows(109, 48757, 1, 109, 3, 27347, 26);
    assert Follows(109, 48757, 3, 27347, 7, 30823, 1671894);
    assert Follows(109, 48757, 7, 30823, 14, 27184, 19485);
    assert Follows(109, 48757, 14, 27184, 29, 28893, 1652023);
    assert Follows(109, 48757, 29, 28893, 59, 18794, 1866271);
    assert Follows(109, 48757, 59, 18794, 119, 42315, 789637);
    assert Follows(109, 48757, 119, 42315, 239, 1, 4002932);
  }

  lemma MiddlePrime()
    ensures Prime(48757)
  {
    forall p: (nat, int) -> bool | Climbs(109, 48757, p)
      ensures p(239, 1)
    {
      MiddleLadder(p);
    }
    SmallPrime();
    PrimeByPowers(48757, 239, 109, 4966);
  }

  const LARGE_PRIME: Int := 2147453309

  lemma LargeLadder(p: (nat, int) -> bool)
    requires Climbs(5047048, 2147453309, p)
    ensures p(48757, 1)
  {
    assert Follows(5047048, 2147453309, 1, 5047048, 2, 1749816255, 11861);
    assert Follows(5047048, 2147453309, 2, 1749816255, 5, 909466167, 7196123338846437);
    assert Follows(5047048, 2147453309, 5, 909466167, 11, 979824676, 1943957653742644);
    assert Follows(5047048, 2147453309, 11, 979824676, 23, 860993123, 2256370693365025);
    assert Follows(5047048, 2147453309, 23, 860993123, 47, 596282465, 1742260419281203);
    assert Follows(5047048, 2147453309, 47, 596282465, 95, 1926529322, 835637231279542);
    assert Follows(5047048, 2147453309, 95, 1926529322, 190, 1179438500, 1728333376);
    assert Follows(5047048, 2147453309, 190, 1179438500, 380, 1051912528, 647779008);
    assert Follows(5047048, 2147453309, 380, 1051912528, 761, 1178237977, 2600596418463795);
    assert Follows(5047048, 2147453309, 761, 1178237977, 1523, 998483414, 3262719501718042);
    assert Follows(5047048, 2147453309, 1523, 998483414, 3047, 1429626046, 2343124771380618);
    assert Follows(5047048, 2147453309, 3047, 1429626046, 6094, 1805659484, 951746248);
    assert Follows(5047048, 2147453309, 6094, 1805659484, 12189, 1777630531, 7662763321287873);
    assert Follows(5047048, 2147453309, 12189, 1777630531, 24378, 1762399909, 1471496628);
    assert Follows(5047048, 2147453309, 24378, 1762399909, 48757, 1, 7299996108285843);
  }

  lemma LargePrimeIsPrime()
    ensures Prime(LARGE_PRIME)
  {
    forall p: (nat, int) -> bool | Climbs(5047048, 2147453309, p)
      ensures p(48757, 1)
    {
      LargeLadder(p);
    }
    MiddlePrime();
    PrimeByPowers(2147453309, 48757, 5047048, 1457472817);
  }

  /** An entry on which `j * j` leaves the range of `int`. */
  lemma LargePrimeOverflows()
    ensures Overflows(LARGE_PRIME)
  {
    LargePrimeIsPrime();
  }
}
