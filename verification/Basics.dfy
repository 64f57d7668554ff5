/** Small shared vocabulary: optional values, and sums over a sequence. */
module Basics {
  datatype Option<+T> = None | Some(value: T)

  /** The number of values of a 64-bit word. */
  const WORD: nat := 0x1_0000_0000_0000_0000

  /** `fetch_add(1)` and `fetch_sub(1)` wrap around. */
  function Increment(n: nat): nat { (n + 1) % WORD }

  function Decrement(n: nat): nat { (n + WORD - 1) % WORD }

  lemma IncrementThenDecrement(n: nat)
    requires n < WORD
    ensures Decrement(Increment(n)) == n
  {
    if n == WORD - 1 {
      assert Increment(n) == 0;
    } else {
      assert Increment(n) == n + 1;
    }
  }

  /** The total weight of a sequence. */
  ghost function Sum<T>(xs: seq<T>, weight: T -> nat): nat {
    if xs == [] then 0 else weight(xs[0]) + Sum(xs[1..], weight)
  }

  /** Overwriting one element moves the sum by the difference of the two weights. */
  lemma {:induction false} SumUpdate<T>(xs: seq<T>, i: nat, x: T, weight: T -> nat)
    requires i < |xs|
    ensures Sum(xs[i := x], weight) + weight(xs[i]) == Sum(xs, weight) + weight(x)
  {
    if i == 0 {
      assert xs[i := x][1..] == xs[1..];
    } else {
      assert xs[i := x][1..] == xs[1..][i - 1 := x];
      SumUpdate(xs[1..], i - 1, x, weight);
    }
  }

  lemma {:induction false} SumAppend<T>(xs: seq<T>, x: T, weight: T -> nat)
    ensures Sum(xs + [x], weight) == Sum(xs, weight) + weight(x)
  {
    if xs == [] {
    } else {
      assert (xs + [x])[1..] == xs[1..] + [x];
      SumAppend(xs[1..], x, weight);
    }
  }

  /** One element weighs at most the whole. */
  lemma {:induction false} SumAtLeast<T>(xs: seq<T>, i: nat, weight: T -> nat)
    requires i < |xs|
    ensures weight(xs[i]) <= Sum(xs, weight)
  {
    if i > 0 {
      SumAtLeast(xs[1..], i - 1, weight);
    }
  }

  /** A sum is zero exactly when every weight is. */
  lemma {:induction false} SumZero<T>(xs: seq<T>, weight: T -> nat)
    ensures Sum(xs, weight) == 0 <==> forall x | x in xs :: weight(x) == 0
  {
    if xs != [] {
      SumZero(xs[1..], weight);
      assert xs == [xs[0]] + xs[1..];
    }
  }

  // ----- counting without repetition

  /** A sequence without repetition is no longer than any set it draws from. */
  lemma {:induction false} DistinctLength<T>(xs: seq<T>, bound: set<T>)
    requires forall i, j | 0 <= i < j < |xs| :: xs[i] != xs[j]
    requires forall x | x in xs :: x in bound
    ensures |xs| <= |bound|
  {
    if xs != [] {
      DistinctLength(xs[1..], bound - {xs[0]});
    }
  }

  /** The first `k` natural numbers. */
  ghost function Below(k: nat): set<nat> {
    if k == 0 then {} else Below(k - 1) + {k - 1}
  }

  lemma {:induction false} BelowSize(k: nat)
    ensures |Below(k)| == k && forall i: nat :: i in Below(k) <==> i < k
  {
    if k > 0 { BelowSize(k - 1); }
  }
}
