/** Round robin by a shared wrapping counter. */
module RoundRobin {
  import opened Basics

  class BalancedProxy<P> {
    const proxies: seq<P>
    var counter: nat

    ghost predicate Valid()
      reads this
    {
      counter < WORD
    }

    constructor (proxies: seq<P>)
      ensures Valid() && this.proxies == proxies && counter == 0
    {
      this.proxies, counter := proxies, 0;
    }

    /** One atomic `fetch_add`, then an index from the old value. */
    method NextProxy() returns (proxy: Option<P>)
      requires Valid()
      modifies this`counter
      ensures Valid()
      ensures proxies == [] ==> proxy == None && counter == old(counter)
      ensures proxies != [] ==> Picks(old(counter), 1, |proxies|)[0] < |proxies|
                                && proxy == Some(proxies[Picks(old(counter), 1, |proxies|)[0]])
                                && counter == (old(counter) + 1) % WORD
    {
      if proxies == [] {
        return None;
      }
      var index := counter % |proxies|;
      counter := (counter + 1) % WORD;
      assert Picks(old(counter), 1, |proxies|)[0] == index;
      proxy := Some(proxies[index]);
    }
  }

  /**
   The indices picked by `length` consecutive increments. Whoever the callers
   are and however they interleave, the atomic increments happen one after the
   other and each returns the next value.
   */
  function Picks(counter: nat, length: nat, n: nat): (picks: seq<nat>)
    requires n > 0
    ensures |picks| == length
    decreases length
  {
    if length == 0 then [] else [counter % n] + Picks((counter + 1) % WORD, length - 1, n)
  }

  /** How many of the numbers from `lo` up to `hi` leave remainder `i`. */
  function Hits(lo: nat, hi: nat, n: nat, i: nat): nat
    requires n > 0
    decreases hi - lo
  {
    if lo >= hi then 0 else (if lo % n == i then 1 else 0) + Hits(lo + 1, hi, n, i)
  }

  lemma {:induction false} HitsSplit(lo: nat, mid: nat, hi: nat, n: nat, i: nat)
    requires n > 0 && lo <= mid <= hi
    ensures Hits(lo, hi, n, i) == Hits(lo, mid, n, i) + Hits(mid, hi, n, i)
    decreases mid - lo
  {
    if lo < mid { HitsSplit(lo + 1, mid, hi, n, i); }
  }

  lemma ModPeriod(x: nat, n: nat)
    requires n > 0
    ensures (x + n) % n == x % n
  {
    var y := x + n;
    var d := y / n - x / n - 1;
    assert d * n == x % n - y % n;
    assert d >= 1 ==> d * n >= n;
    assert d <= -1 ==> d * n + n <= 0;
  }

  lemma WrapSum(counter: nat, first: nat)
    requires counter < WORD && first > 0
    ensures ((counter + 1) % WORD + (first - 1)) % WORD == (counter + first) % WORD
    ensures counter % WORD == counter
  {
  }

  lemma SmallMod(k: nat, n: nat)
    requires k < n
    ensures k % n == k
  {
  }

  lemma {:induction false} HitsFromSmall(k: nat, n: nat, i: nat)
    requires n > 0 && k <= n && i < n
    ensures Hits(k, n, n, i) == if k <= i then 1 else 0
    decreases n - k
  {
    if k < n {
      HitsFromSmall(k + 1, n, i);
      SmallMod(k, n);
    }
  }

  /** Any n consecutive numbers hit every remainder once. */
  lemma {:induction false} HitsBlock(lo: nat, n: nat, i: nat)
    requires n > 0 && i < n
    ensures Hits(lo, lo + n, n, i) == 1
  {
    if lo == 0 {
      HitsFromSmall(0, n, i);
    } else {
      var before := lo - 1;
      HitsBlock(before, n, i);
      HitsSplit(before, lo, lo + n, n, i);
      HitsSplit(before, before + n, lo + n, n, i);
      ModPeriod(before, n);
      assert Hits(before, lo, n, i) == Hits(before + n, lo + n, n, i);
    }
  }

  lemma {:induction false} HitsBalanced(lo: nat, hi: nat, n: nat, a: nat, b: nat)
    requires n > 0 && a < n && b < n && lo <= hi
    ensures Hits(lo, hi, n, a) <= Hits(lo, hi, n, b) + 1
    decreases hi - lo
  {
    HitsBlock(lo, n, a);
    HitsBlock(lo, n, b);
    if hi - lo >= n {
      HitsSplit(lo, lo + n, hi, n, a);
      HitsSplit(lo, lo + n, hi, n, b);
      HitsBalanced(lo + n, hi, n, a, b);
    } else {
      HitsSplit(lo, hi, lo + n, n, a);
    }
  }

  function Selections(counter: nat, length: nat, n: nat, i: nat): nat
    requires n > 0
  {
    multiset(Picks(counter, length, n))[i]
  }

  lemma {:induction false} SelectionsWithoutWrap(counter: nat, length: nat, n: nat, i: nat)
    requires n > 0 && counter + length <= WORD
    ensures Selections(counter, length, n, i) == Hits(counter, counter + length, n, i)
    decreases length
  {
    if length > 0 {
      var rest := Picks((counter + 1) % WORD, length - 1, n);
      assert Picks(counter, length, n) == [counter % n] + rest;
      assert multiset([counter % n] + rest) == multiset{counter % n} + multiset(rest);
      if length > 1 {
        WrapSum(counter + 1, 1);
        SelectionsWithoutWrap(counter + 1, length - 1, n, i);
      }
    }
  }

  lemma {:induction false} PicksSplit(counter: nat, first: nat, length: nat, n: nat)
    requires n > 0 && counter < WORD && first <= length
    ensures Picks(counter, length, n) == Picks(counter, first, n) + Picks((counter + first) % WORD, length - first, n)
    decreases first
  {
    if first > 0 {
      WrapSum(counter, first);
      PicksSplit((counter + 1) % WORD, first - 1, length - 1, n);
    } else {
      WrapSum(counter, 1);
    }
  }

  /** In a window in which the counter does not wrap, no index is picked more than once more often than another. */
  lemma FairWithoutWrap(counter: nat, length: nat, n: nat, a: nat, b: nat)
    requires n > 0 && a < n && b < n && counter + length <= WORD
    ensures Selections(counter, length, n, a) <= Selections(counter, length, n, b) + 1
  {
    SelectionsWithoutWrap(counter, length, n, a);
    SelectionsWithoutWrap(counter, length, n, b);
    HitsBalanced(counter, counter + length, n, a, b);
  }

  /** In any window of at most 2^64 increments, not more than twice more often. */
  lemma FairAcrossOneWrap(counter: nat, length: nat, n: nat, a: nat, b: nat)
    requires n > 0 && a < n && b < n && counter < WORD && length <= WORD
    ensures Selections(counter, length, n, a) <= Selections(counter, length, n, b) + 2
  {
    hide Picks, Hits;
    if counter + length <= WORD {
      FairWithoutWrap(counter, length, n, a, b);
    } else {
      var first := WORD - counter;
      PicksSplit(counter, first, length, n);
      var before, after := Picks(counter, first, n), Picks(0, length - first, n);
      assert Picks(counter, length, n) == before + after;
      assert multiset(before + after) == multiset(before) + multiset(after);
      FairWithoutWrap(counter, first, n, a, b);
      FairWithoutWrap(0, length - first, n, a, b);
    }
  }

  /** The second bound is needed: with three endpoints the wrap picks index 0 twice in a row. */
  lemma WrapCanRepeat()
    ensures Selections(WORD - 1, 2, 3, 0) == 2 && Selections(WORD - 1, 2, 3, 1) == 0
  {
    assert (WORD - 1) % 3 == 0;
    assert Picks(WORD - 1, 2, 3) == [0] + Picks(0, 1, 3);
    assert Picks(0, 1, 3) == [0] + Picks(1, 0, 3);
    assert Picks(WORD - 1, 2, 3) == [0, 0];
  }
}
