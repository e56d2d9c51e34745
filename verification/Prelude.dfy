/** Result types, integer helpers and sums over sequences that the models share. */
module Prelude {
  datatype Option<+T> = None | Some(value: T)

  datatype Result<+T, +E> = Ok(value: T) | Err(error: E)

  newtype Byte = b: int | 0 <= b < 256

  function Max(a: int, b: int): int {
    if a < b then b else a
  }

  function Min(a: int, b: int): int {
    if a < b then a else b
  }

  /** The sum of a weight over a sequence. */
  function Sum<T>(s: seq<T>, weight: T -> int): int {
    if s == [] then 0 else Sum(s[..|s| - 1], weight) + weight(s[|s| - 1])
  }

  lemma SumAppend<T>(s: seq<T>, x: T, weight: T -> int)
    ensures Sum(s + [x], weight) == Sum(s, weight) + weight(x)
  {
    assert (s + [x])[..|s|] == s;
  }

  lemma {:induction false} SumUpdate<T>(s: seq<T>, i: nat, x: T, weight: T -> int)
    requires i < |s|
    ensures Sum(s[i := x], weight) == Sum(s, weight) - weight(s[i]) + weight(x)
  {
    var n := |s| - 1;
    if i == n {
      assert s[i := x][..n] == s[..n];
    } else {
      assert s[i := x][..n] == s[..n][i := x];
      SumUpdate(s[..n], i, x, weight);
    }
  }

  lemma {:induction false} SumCompare<T>(s: seq<T>, low: T -> int, high: T -> int)
    requires forall x :: x in s ==> low(x) <= high(x)
    ensures Sum(s, low) <= Sum(s, high)
  {
    if s != [] {
      assert forall x :: x in s[..|s| - 1] ==> x in s;
      SumCompare(s[..|s| - 1], low, high);
    }
  }

  lemma {:induction false} SumIsAtLeast<T>(s: seq<T>, i: nat, weight: T -> int)
    requires i < |s|
    requires forall x :: x in s ==> 0 <= weight(x)
    ensures weight(s[i]) <= Sum(s, weight)
  {
    var n := |s| - 1;
    assert forall x :: x in s[..n] ==> x in s;
    if i < n {
      SumIsAtLeast(s[..n], i, weight);
    } else {
      SumIsNonNegative(s[..n], weight);
    }
  }

  lemma {:induction false} SumIsNonNegative<T>(s: seq<T>, weight: T -> int)
    requires forall x :: x in s ==> 0 <= weight(x)
    ensures 0 <= Sum(s, weight)
  {
    if s != [] {
      assert forall x :: x in s[..|s| - 1] ==> x in s;
      SumIsNonNegative(s[..|s| - 1], weight);
    }
  }

  /** A sum splits along a pointwise split of its weight. */
  lemma {:induction false} SumSplits<T>(s: seq<T>, whole: T -> int, left: T -> int, right: T -> int)
    requires forall x :: x in s ==> whole(x) == left(x) + right(x)
    ensures Sum(s, whole) == Sum(s, left) + Sum(s, right)
  {
    if s != [] {
      assert forall x :: x in s[..|s| - 1] ==> x in s;
      SumSplits(s[..|s| - 1], whole, left, right);
    }
  }
}
