/** `pr5t4.c`: counting the composite numbers of an array, and the largest of them, by trial
  division on `int`.
 */
module Composites {

  const INT_MAX := 0x7fff_ffff
  const INT_MIN := -0x8000_0000

  /** The largest number whose square is an `int`. */
  const ROOT := 46340

  type Int = n: int | -0x8000_0000 <= n <= 0x7fff_ffff

  ghost predicate Composite(n: int)
  {
    exists a, b :: 2 <= a && 2 <= b && Product(a, b) == n
  }

  function Product(a: int, b: int): int { a * b }

  /** A divisor below `j`, if any, is one the scan has seen. */
  ghost predicate NoDivisorBelow(n: int, j: int)
  {
    forall d :: 2 <= d < j ==> n % d != 0
  }

  lemma MulGrows(a: int, k: int)
    requires 1 <= a
    ensures k >= 1 ==> a * k >= a
    ensures k <= -1 ==> a * k <= -a
  {
    if k >= 1 {
      assert a * (k - 1) >= 0;
    } else if k <= -1 {
      assert a * (-k - 1) >= 0;
    }
  }

  lemma MulMonotone(a: int, b: int, c: int)
    requires 0 <= c && a <= b
    ensures a * c <= b * c
  {
    assert (b - a) * c >= 0;
  }

  lemma SquaresGrow(a: int, b: int)
    requires 0 <= a <= b
    ensures a * a <= b * b
  {
    MulMonotone(a, b, a);
    MulMonotone(a, b, b);
  }

  lemma FactorDivides(a: int, b: int)
    requires 1 <= a
    ensures (a * b) % a == 0
  {
    var q, r := a * b / a, a * b % a;
    assert a * (b - q) == r;
    MulGrows(a, b - q);
  }

  lemma DivisorMakesComposite(n: int, d: int)
    requires 2 <= d && d * d <= n && n % d == 0
    ensures Composite(n)
  {
    var q := n / d;
    assert Product(d, q) == n;
    if q < d {
      MulMonotone(q, d - 1, d);
    }
  }

  /** If nothing below `j` divides a product, both factors reach `j`. */
  lemma FactorsReach(n: int, j: int, a: int, b: int)
    requires 2 <= a && 2 <= b && 2 <= j && a * b == n && NoDivisorBelow(n, j)
    ensures j * j <= n
  {
    FactorDivides(a, b);
    FactorDivides(b, a);
    assert j <= a && j <= b;
    MulMonotone(j, a, j);
    MulMonotone(j, b, a);
  }

  /** A composite number has a divisor no larger than its square root. */
  lemma SmallDivisor(n: int, j: int)
    requires 2 <= j && j * j > n && NoDivisorBelow(n, j)
    ensures !Composite(n)
  {
    if Composite(n) {
      var a, b :| 2 <= a && 2 <= b && Product(a, b) == n;
      FactorsReach(n, j, a, b);
    }
  }

  /** The scan of one number needs a square beyond `int` when the number is large and prime. */
  ghost predicate Overflows(num: Int)
  {
    num >= ROOT * ROOT && !Composite(num)
  }

  /** The trial division loop: `j` runs while `j * j <= num`, and `overflow` says that `j * j`
      left the range of `int`, after which the code's behaviour is undefined. */
  method IsComposite(num: Int) returns (isComposite: bool, overflow: bool)
    requires num >= 4
    ensures overflow <==> Overflows(num)
    ensures !overflow ==> (isComposite <==> Composite(num))
  {
    isComposite, overflow := false, false;
    var j := 2;
    while true
      invariant 2 <= j <= ROOT + 1
      invariant NoDivisorBelow(num, j)
      invariant j == ROOT + 1 ==> ROOT * ROOT <= num
      decreases ROOT + 1 - j
    {
      if j > ROOT {
        // j * j no longer is an int
        SmallDivisor(num, j);
        return false, true;
      }
      SquaresGrow(j, ROOT);
      if j * j > num {
        SmallDivisor(num, j);
        return false, false;
      }
      if num % j == 0 {
        DivisorMakesComposite(num, j);
        return true, false;
      }
      j := j + 1;
    }
  }

  ghost function CompositesIn(arr: seq<Int>): (count: nat)
  {
    if arr == [] then 0
    else CompositesIn(arr[..|arr| - 1]) + if Composite(arr[|arr| - 1]) then 1 else 0
  }

  /** The indices of the composite entries. */
  ghost function CompositeIndices(arr: seq<Int>): set<int>
  {
    set i | 0 <= i < |arr| && Composite(arr[i])
  }

  /** The count is that of the entries which are composite. */
  lemma {:induction false} CompositesAreCounted(arr: seq<Int>)
    ensures CompositesIn(arr) == |CompositeIndices(arr)|
  {
    if arr != [] {
      var last := |arr| - 1;
      var front := arr[..last];
      CompositesAreCounted(front);
      assert CompositeIndices(arr)
             == CompositeIndices(front) + if Composite(arr[last]) then {last} else {};
      assert last !in CompositeIndices(front);
    } else {
      assert CompositeIndices(arr) == {};
    }
  }

  ghost predicate IsLargestComposite(arr: seq<Int>, m: Int)
  {
    m in arr && Composite(m) && forall i :: 0 <= i < |arr| && Composite(arr[i]) ==> arr[i] <= m
  }

  lemma CompositesStartAtFour(n: int)
    requires Composite(n)
    ensures n >= 4
  {
    var a, b :| 2 <= a && 2 <= b && Product(a, b) == n;
    MulMonotone(2, a, b);
  }

  /** The scan of the array. It runs into overflow exactly when some entry is a prime of at
      least 46340 * 46340; otherwise it finds the number of composites and the largest. */
  method Scan(arr: array<Int>) returns (compositeCount: nat, maxComposite: Int, overflow: bool)
    ensures overflow <==> exists i :: 0 <= i < arr.Length && Overflows(arr[i])
    ensures overflow ==> exists i :: 0 <= i < arr.Length && arr[i] >= ROOT * ROOT
    ensures !overflow ==> compositeCount == |CompositeIndices(arr[..])|
    ensures !overflow && compositeCount > 0 ==> IsLargestComposite(arr[..], maxComposite)
    ensures !overflow && compositeCount == 0 ==> forall i :: 0 <= i < arr.Length ==> !Composite(arr[i])
  {
    compositeCount, maxComposite, overflow := 0, INT_MIN, false;
    for i := 0 to arr.Length
      invariant !overflow && forall k :: 0 <= k < i ==> !Overflows(arr[k])
      invariant compositeCount == CompositesIn(arr[..i])
      invariant compositeCount > 0 ==> IsLargestComposite(arr[..i], maxComposite)
      invariant compositeCount == 0 ==> maxComposite == INT_MIN && forall k :: 0 <= k < i ==> !Composite(arr[k])
    {
      assert arr[..i + 1][..i] == arr[..i];
      var num := arr[i];
      if num < 4 {
        if Composite(num) {
          CompositesStartAtFour(num);
        }
        continue;
      }
      var isComposite, wrapped := IsComposite(num);
      if wrapped {
        assert num >= ROOT * ROOT;
        overflow := true;
        return;
      }
      if isComposite {
        compositeCount := compositeCount + 1;
        if num > maxComposite {
          maxComposite := num;
        }
      }
    }
    assert arr[..arr.Length] == arr[..];
    CompositesAreCounted(arr[..]);
  }
}
