/** Counting threads by where they are: the sum of a weight over a sequence. */
module Tally {

  function Sum<T>(w: T -> int, s: seq<T>): int
  {
    if s == [] then 0 else w(s[0]) + Sum(w, s[1..])
  }

  /** Moving one thread changes the sum by the difference of its two weights. */
  lemma {:induction false} SumUpdate<T>(w: T -> int, s: seq<T>, i: nat, x: T)
    requires i < |s|
    ensures Sum(w, s[i := x]) == Sum(w, s) - w(s[i]) + w(x)
  {
    if i == 0 {
      assert s[i := x][1..] == s[1..];
    } else {
      assert s[i := x][1..] == s[1..][i - 1 := x];
      SumUpdate(w, s[1..], i - 1, x);
    }
  }

  /** A sum of non-negative weights bounds each of them. */
  lemma {:induction false} SumBound<T>(w: T -> int, s: seq<T>, i: nat)
    requires i < |s|
    requires forall j :: 0 <= j < |s| ==> w(s[j]) >= 0
    ensures w(s[i]) <= Sum(w, s)
  {
    SumNonNegative(w, s[1..]);
    if i > 0 {
      SumBound(w, s[1..], i - 1);
    }
  }

  /** ... and any two of them together. */
  lemma {:induction false} SumBoundTwo<T>(w: T -> int, s: seq<T>, i: nat, j: nat)
    requires i < j < |s|
    requires forall k :: 0 <= k < |s| ==> w(s[k]) >= 0
    ensures w(s[i]) + w(s[j]) <= Sum(w, s)
  {
    if i > 0 {
      SumBoundTwo(w, s[1..], i - 1, j - 1);
    } else {
      SumBound(w, s[1..], j - 1);
    }
  }

  lemma {:induction false} SumNonNegative<T>(w: T -> int, s: seq<T>)
    requires forall j :: 0 <= j < |s| ==> w(s[j]) >= 0
    ensures Sum(w, s) >= 0
  {
    if s != [] {
      SumNonNegative(w, s[1..]);
    }
  }

  lemma {:induction false} SumZero<T>(w: T -> int, s: seq<T>)
    requires forall j :: 0 <= j < |s| ==> w(s[j]) == 0
    ensures Sum(w, s) == 0
  {
    if s != [] {
      SumZero(w, s[1..]);
    }
  }

  lemma {:induction false} SumAppend<T>(w: T -> int, s: seq<T>, x: T)
    ensures Sum(w, s + [x]) == Sum(w, s) + w(x)
  {
    if s != [] {
      assert (s + [x])[0] == s[0] && (s + [x])[1..] == s[1..] + [x];
      SumAppend(w, s[1..], x);
    } else {
      assert s + [x] == [x];
    }
  }

  /** How often `v` occurs in a sequence. */
  function Copies<T(==)>(v: T, s: seq<T>): int
  {
    Sum(Is(v), s)
  }

  function Is<T(==)>(v: T): T -> int
  {
    x => if x == v then 1 else 0
  }

  lemma {:induction false} SumConcat<T>(w: T -> int, a: seq<T>, b: seq<T>)
    ensures Sum(w, a + b) == Sum(w, a) + Sum(w, b)
  {
    if a == [] {
      assert a + b == b;
    } else {
      assert (a + b)[0] == a[0] && (a + b)[1..] == a[1..] + b;
      SumConcat(w, a[1..], b);
    }
  }

  /** If every element has the same weight, the sum is a product. */
  lemma {:induction false} SumConstant<T>(w: T -> int, s: seq<T>, c: int)
    requires forall j :: 0 <= j < |s| ==> w(s[j]) == c
    ensures Sum(w, s) == |s| * c
  {
    if s != [] {
      SumConstant(w, s[1..], c);
      assert |s| * c == |s[1..]| * c + c;
    }
  }
}
