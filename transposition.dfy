/**
  The sort phase of `order_by_fitness`, stated on the sequence of fitness values.

  One pass compares the pairs (i, i + 1) for i = start, start + 2, ... and swaps a
  pair when the first fitness is strictly smaller than the second, so that fitter
  candidates move to the front. The passes alternate their starting parity, the
  first one starting at 0, and the loop stops after the first pass that makes no
  swap. That exit condition only says that the pairs of the last pass's parity are
  in order; the pairs of the other parity may still be out of order.
*/
module Transposition {

  /** The number of later values strictly greater than `x`. */
  function Above(x: int, s: seq<int>): nat {
    if s == [] then 0 else (if x < s[0] then 1 else 0) + Above(x, s[1..])
  }

  /** Inversions of a ranking that should be non-increasing: pairs i < j with s[i] < s[j]. */
  function Inversions(s: seq<int>): nat {
    if s == [] then 0 else Above(s[0], s[1..]) + Inversions(s[1..])
  }

  /** `s` with the neighbours at `i` and `i + 1` exchanged. */
  function SwapAt<T>(s: seq<T>, i: nat): (r: seq<T>)
    requires i + 1 < |s|
    ensures |r| == |s| && multiset(r) == multiset(s)
  {
    s[i := s[i + 1]][i + 1 := s[i]]
  }

  /** The pair (p, p + 1), when there is one, is in non-increasing order. */
  ghost predicate InOrderAt(s: seq<int>, p: nat) {
    p + 1 < |s| ==> s[p] >= s[p + 1]
  }

  /** Every pair (p, p + 1) with p = start, start + 2, ... is in non-increasing order. */
  ghost predicate PairsOrderedFrom(s: seq<int>, start: nat)
    decreases |s| - start
  {
    start + 1 < |s| ==> s[start] >= s[start + 1] && PairsOrderedFrom(s, start + 2)
  }

  ghost predicate NonIncreasing(s: seq<int>) {
    forall p: nat :: InOrderAt(s, p)
  }

  lemma {:induction false} AboveSwap(x: int, s: seq<int>, i: nat)
    requires i + 1 < |s|
    ensures Above(x, SwapAt(s, i)) == Above(x, s)
  {
    if i > 0 {
      AboveSwap(x, s[1..], i - 1);
      assert SwapAt(s, i)[1..] == SwapAt(s[1..], i - 1);
    } else {
      assert SwapAt(s, 0)[1..][1..] == s[2..];
      assert s[1..][1..] == s[2..];
    }
  }

  /** Swapping one out-of-order neighbour pair removes exactly one inversion. */
  lemma {:induction false} SwapRemovesOneInversion(s: seq<int>, i: nat)
    requires i + 1 < |s| && s[i] < s[i + 1]
    ensures Inversions(SwapAt(s, i)) == Inversions(s) - 1
  {
    var r := SwapAt(s, i);
    if i > 0 {
      SwapRemovesOneInversion(s[1..], i - 1);
      assert r[1..] == SwapAt(s[1..], i - 1);
      AboveSwap(s[0], s[1..], i - 1);
    } else {
      assert r[1..][1..] == s[2..];
      assert s[1..][1..] == s[2..];
    }
  }

  /** The pass from position `i` on, as the `for i in range(start, len, 2)` loop does it. */
  function PassFrom(s: seq<int>, i: nat): (r: seq<int>)
    ensures |r| == |s| && multiset(r) == multiset(s)
    decreases |s| - i
  {
    if i + 1 >= |s| then s
    else if s[i] >= s[i + 1] then PassFrom(s, i + 2)
    else PassFrom(SwapAt(s, i), i + 2)
  }

  /** One step of the pass: the pair at `i` is handled, then the pass goes on at `i + 2`. */
  lemma PassFromStep(s: seq<int>, i: nat)
    ensures PassFrom(s, i) == if i + 1 >= |s| then s
      else if s[i] >= s[i + 1] then PassFrom(s, i + 2)
      else PassFrom(SwapAt(s, i), i + 2)
  {
  }

  /** The pass from `i` on leaves the positions before `i` alone. */
  lemma {:induction false} PassKeepsPrefix(s: seq<int>, i: nat, p: nat)
    requires p < i && p < |s|
    ensures PassFrom(s, i)[p] == s[p]
    decreases |s| - i
  {
    if i + 1 < |s| {
      if s[i] >= s[i + 1] {
        PassKeepsPrefix(s, i + 2, p);
      } else {
        PassKeepsPrefix(SwapAt(s, i), i + 2, p);
      }
    }
  }

  /** After a pass, every pair the pass compared is in order, whether it was swapped or not. */
  lemma {:induction false} PassOrdersItsPairs(s: seq<int>, i: nat)
    ensures PairsOrderedFrom(PassFrom(s, i), i)
    decreases |s| - i
  {
    if i + 1 < |s| {
      var t := if s[i] >= s[i + 1] then s else SwapAt(s, i);
      PassFromStep(s, i);
      var r := PassFrom(t, i + 2);
      assert PassFrom(s, i) == r;
      PassKeepsPrefix(t, i + 2, i);
      PassKeepsPrefix(t, i + 2, i + 1);
      assert r[i] >= r[i + 1];
      PassOrdersItsPairs(t, i + 2);
      assert PairsOrderedFrom(r, i + 2);
    }
  }

  /** A pass whose pairs are all in order swaps nothing. */
  lemma {:induction false} PassQuietWhenOrdered(s: seq<int>, i: nat)
    requires PairsOrderedFrom(s, i)
    ensures PassFrom(s, i) == s
    decreases |s| - i
  {
    if i + 1 < |s| {
      PassQuietWhenOrdered(s, i + 2);
    }
  }

  /** A pass swaps nothing exactly when every pair it compares is already in order. */
  lemma PassQuietIff(s: seq<int>, i: nat)
    ensures PassFrom(s, i) == s <==> PairsOrderedFrom(s, i)
  {
    PassOrdersItsPairs(s, i);
    if PairsOrderedFrom(s, i) {
      PassQuietWhenOrdered(s, i);
    }
  }

  /** A pass never adds inversions, and a pass that changes the order removes at least one. */
  lemma {:induction false} PassLowersInversions(s: seq<int>, i: nat)
    ensures Inversions(PassFrom(s, i)) <= Inversions(s)
    ensures PassFrom(s, i) != s ==> Inversions(PassFrom(s, i)) < Inversions(s)
    decreases |s| - i
  {
    if i + 1 < |s| {
      if s[i] >= s[i + 1] {
        PassLowersInversions(s, i + 2);
      } else {
        SwapRemovesOneInversion(s, i);
        PassLowersInversions(SwapAt(s, i), i + 2);
      }
    }
  }

  /** What the whole sort loop ends with, and how many passes (labels) it took. */
  datatype SortOutcome = SortOutcome(order: seq<int>, passes: nat)

  /** The starting parity of the last of `passes` alternating passes, the first starting at `parity`. */
  function LastParity(parity: nat, passes: nat): (last: nat)
    requires parity < 2
    ensures last < 2
    decreases passes
  {
    if passes <= 1 then parity else LastParity(1 - parity, passes - 1)
  }

  /** One more pass in front of a run of passes moves its starting parity back by one. */
  lemma ExitOrderedStep(rest: SortOutcome, o: SortOutcome, parity: nat)
    requires parity < 2 && rest.passes >= 1 && o == SortOutcome(rest.order, rest.passes + 1)
    requires PairsOrderedFrom(rest.order, LastParity(1 - parity, rest.passes))
    ensures PairsOrderedFrom(o.order, LastParity(parity, o.passes))
  {
  }

  /**
    The `while made_swap` loop from a pass of starting parity `parity` on: the
    loop stops as soon as a pass leaves the order as it was. It terminates
    because every pass that changes the order removes an inversion.
  */
  function SortFrom(s: seq<int>, parity: nat): (o: SortOutcome)
    requires parity < 2
    ensures o.passes >= 1
    decreases Inversions(s)
  {
    var next := PassFrom(s, parity);
    if next == s then SortOutcome(s, 1)
    else
      PassLowersInversions(s, parity);
      var rest := SortFrom(next, 1 - parity);
      SortOutcome(rest.order, rest.passes + 1)
  }

  /** One turn of the sort loop: a pass over ordered pairs ends it, any other pass removes an inversion and the loop goes on with the other parity. */
  lemma SortFromStep(s: seq<int>, parity: nat)
    requires parity < 2
    ensures PairsOrderedFrom(s, parity) ==> SortFrom(s, parity) == SortOutcome(s, 1)
    ensures !PairsOrderedFrom(s, parity) ==>
      var next := PassFrom(s, parity);
      Inversions(next) < Inversions(s)
      && SortFrom(s, parity) == SortOutcome(SortFrom(next, 1 - parity).order, SortFrom(next, 1 - parity).passes + 1)
  {
    PassQuietIff(s, parity);
    PassLowersInversions(s, parity);
  }

  /** The sort loop only rearranges the fitness values. */
  lemma {:induction false} SortFromPermutes(s: seq<int>, parity: nat)
    requires parity < 2
    ensures |SortFrom(s, parity).order| == |s|
    ensures multiset(SortFrom(s, parity).order) == multiset(s)
    decreases Inversions(s)
  {
    var next := PassFrom(s, parity);
    if next != s {
      PassLowersInversions(s, parity);
      SortFromPermutes(next, 1 - parity);
    }
  }

  /** Every pass but the last removes an inversion, so there are at most one more passes than inversions. */
  lemma {:induction false} SortFromPassBound(s: seq<int>, parity: nat)
    requires parity < 2
    ensures SortFrom(s, parity).passes <= Inversions(s) + 1
    decreases Inversions(s)
  {
    var next := PassFrom(s, parity);
    if next != s {
      PassLowersInversions(s, parity);
      SortFromPassBound(next, 1 - parity);
    }
  }

  /** On exit, the pairs of the last pass's parity are in non-increasing order. */
  lemma {:induction false} SortFromExit(s: seq<int>, parity: nat)
    requires parity < 2
    ensures PairsOrderedFrom(SortFrom(s, parity).order, LastParity(parity, SortFrom(s, parity).passes))
    decreases Inversions(s)
  {
    var next := PassFrom(s, parity);
    if next == s {
      PassOrdersItsPairs(s, parity);
      assert SortFrom(s, parity) == SortOutcome(s, 1);
    } else {
      PassLowersInversions(s, parity);
      SortFromExit(next, 1 - parity);
      ExitOrderedStep(SortFrom(next, 1 - parity), SortFrom(s, parity), parity);
    }
  }

  /**
    The pass decided by the values `s`, applied to a list `xs` of items that sit
    beside those values: whenever the pass exchanges two values, it exchanges
    the two items next to them.
  */
  function CarryPass<T>(s: seq<int>, xs: seq<T>, i: nat): (r: seq<T>)
    requires |xs| == |s|
    ensures |r| == |xs| && multiset(r) == multiset(xs)
    decreases |s| - i
  {
    if i + 1 >= |s| then xs
    else if s[i] >= s[i + 1] then CarryPass(s, xs, i + 2)
    else CarryPass(SwapAt(s, i), SwapAt(xs, i), i + 2)
  }

  /** The sort loop decided by the values `s`, applied to the items beside them. */
  function CarrySort<T>(s: seq<int>, xs: seq<T>, parity: nat): (r: seq<T>)
    requires parity < 2 && |xs| == |s|
    ensures |r| == |xs| && multiset(r) == multiset(xs)
    decreases Inversions(s)
  {
    var next := PassFrom(s, parity);
    if next == s then xs
    else
      PassLowersInversions(s, parity);
      CarrySort(next, CarryPass(s, xs, parity), 1 - parity)
  }

  /** One step of the carried pass, as `PassFromStep` for the values. */
  lemma CarryPassStep<T>(s: seq<int>, xs: seq<T>, i: nat)
    requires |xs| == |s|
    ensures CarryPass(s, xs, i) == if i + 1 >= |s| then xs
      else if s[i] >= s[i + 1] then CarryPass(s, xs, i + 2)
      else CarryPass(SwapAt(s, i), SwapAt(xs, i), i + 2)
  {
  }

  /** A pass that has reached the last position changes nothing more. */
  lemma PassEnds<T>(fs: seq<int>, m: seq<T>, i: nat)
    requires |m| == |fs| && i + 1 >= |fs|
    ensures PassFrom(fs, i) == fs && CarryPass(fs, m, i) == m && PairsOrderedFrom(fs, i)
  {
    PassFromStep(fs, i);
    CarryPassStep(fs, m, i);
  }

  /** One turn of the carried sort loop, in the terms of `SortFromStep`. */
  lemma CarrySortStep<T>(s: seq<int>, xs: seq<T>, parity: nat)
    requires parity < 2 && |xs| == |s|
    ensures PairsOrderedFrom(s, parity) ==> CarrySort(s, xs, parity) == xs
    ensures !PairsOrderedFrom(s, parity) ==>
      CarrySort(s, xs, parity) == CarrySort(PassFrom(s, parity), CarryPass(s, xs, parity), 1 - parity)
  {
    PassQuietIff(s, parity);
  }

  /** Carrying the values themselves gives the pass itself: each item moves with its value. */
  lemma {:induction false} CarryPassOfValues(s: seq<int>, i: nat)
    ensures CarryPass(s, s, i) == PassFrom(s, i)
    decreases |s| - i
  {
    if i + 1 < |s| {
      if s[i] >= s[i + 1] {
        CarryPassOfValues(s, i + 2);
      } else {
        CarryPassOfValues(SwapAt(s, i), i + 2);
      }
    }
  }

  /** Carrying the values through the whole loop gives the sorted values. */
  lemma {:induction false} CarrySortOfValues(s: seq<int>, parity: nat)
    requires parity < 2
    ensures CarrySort(s, s, parity) == SortFrom(s, parity).order
    decreases Inversions(s)
  {
    var next := PassFrom(s, parity);
    if next != s {
      PassLowersInversions(s, parity);
      CarryPassOfValues(s, parity);
      CarrySortOfValues(next, 1 - parity);
    }
  }

  /**
    The phase as the source runs it: `evens` starts True and is flipped first, so
    the first pass starts at 0. The loop only rearranges the fitness values, it
    stops after at most one pass more than there are inversions, and on exit the
    pairs of the last pass's parity are in non-increasing order.
  */
  function SortByFitness(s: seq<int>): (o: SortOutcome)
    ensures |o.order| == |s| && multiset(o.order) == multiset(s)
    ensures 1 <= o.passes <= Inversions(s) + 1
    ensures PairsOrderedFrom(o.order, LastParity(0, o.passes))
  {
    SortFromPermutes(s, 0);
    SortFromPassBound(s, 0);
    SortFromExit(s, 0);
    SortFrom(s, 0)
  }

  /** Where the phase puts the items that sit beside the fitness values `s`. */
  function CarryByFitness<T>(s: seq<int>, xs: seq<T>): (r: seq<T>)
    requires |xs| == |s|
    ensures |r| == |xs| && multiset(r) == multiset(xs)
  {
    CarrySort(s, xs, 0)
  }

  /**
    `tags[p]` records where the item now at position p started. The order is
    stable when any two positions holding equal values hold items in their
    original relative order.
  */
  ghost predicate StableFor(vals: seq<int>, tags: seq<nat>) {
    |tags| == |vals| && forall p, q :: 0 <= p < q < |vals| && vals[p] == vals[q] ==> tags[p] < tags[q]
  }

  /** Exchanging a strictly ordered pair never reorders two equal values. */
  lemma SwapKeepsStable(vals: seq<int>, tags: seq<nat>, i: nat)
    requires i + 1 < |vals| && vals[i] < vals[i + 1] && StableFor(vals, tags)
    ensures StableFor(SwapAt(vals, i), SwapAt(tags, i))
  {
    var v, t := SwapAt(vals, i), SwapAt(tags, i);
    forall p, q | 0 <= p < q < |v| && v[p] == v[q]
      ensures t[p] < t[q]
    {
      var pp := if p == i then i + 1 else if p == i + 1 then i else p;
      var qq := if q == i then i + 1 else if q == i + 1 then i else q;
      assert v[p] == vals[pp] && t[p] == tags[pp];
      assert v[q] == vals[qq] && t[q] == tags[qq];
    }
  }

  /** A pass keeps the order stable. */
  lemma {:induction false} CarryPassStable(s: seq<int>, tags: seq<nat>, i: nat)
    requires StableFor(s, tags)
    ensures StableFor(PassFrom(s, i), CarryPass(s, tags, i))
    decreases |s| - i
  {
    if i + 1 < |s| {
      if s[i] >= s[i + 1] {
        CarryPassStable(s, tags, i + 2);
      } else {
        SwapKeepsStable(s, tags, i);
        CarryPassStable(SwapAt(s, i), SwapAt(tags, i), i + 2);
      }
    }
  }

  /** The whole loop keeps the order stable. */
  lemma {:induction false} CarrySortStable(s: seq<int>, tags: seq<nat>, parity: nat)
    requires parity < 2 && StableFor(s, tags)
    ensures StableFor(SortFrom(s, parity).order, CarrySort(s, tags, parity))
    decreases Inversions(s)
  {
    var next := PassFrom(s, parity);
    if next != s {
      PassLowersInversions(s, parity);
      CarryPassStable(s, tags, parity);
      CarrySortStable(next, CarryPass(s, tags, parity), 1 - parity);
    }
  }

  /** The positions 0, 1, ..., n - 1: every item where it started. */
  function Positions(n: nat): (r: seq<nat>)
    ensures |r| == n && forall k :: 0 <= k < n ==> r[k] == k
  {
    seq(n, k requires 0 <= k < n => k)
  }

  ghost predicate AllBelow(tags: seq<nat>, n: nat) {
    forall k :: 0 <= k < |tags| ==> tags[k] < n
  }

  /** The items of `xs` at the positions `tags`, in that order. */
  function Select<T>(xs: seq<T>, tags: seq<nat>): (r: seq<T>)
    requires AllBelow(tags, |xs|)
    ensures |r| == |tags|
  {
    seq(|tags|, k requires 0 <= k < |tags| => xs[tags[k]])
  }

  lemma AllBelowOfPermutation(a: seq<nat>, b: seq<nat>, n: nat)
    requires AllBelow(a, n) && multiset(a) == multiset(b)
    ensures AllBelow(b, n)
  {
    forall k | 0 <= k < |b|
      ensures b[k] < n
    {
      assert b[k] in multiset(a);
    }
  }

  /** Carrying items is carrying their positions and then looking the items up. */
  lemma {:induction false} CarryPassSelect<T>(s: seq<int>, xs: seq<T>, tags: seq<nat>, i: nat)
    requires |tags| == |s| && AllBelow(tags, |xs|)
    ensures AllBelow(CarryPass(s, tags, i), |xs|)
    ensures CarryPass(s, Select(xs, tags), i) == Select(xs, CarryPass(s, tags, i))
    decreases |s| - i
  {
    AllBelowOfPermutation(tags, CarryPass(s, tags, i), |xs|);
    if i + 1 < |s| {
      if s[i] >= s[i + 1] {
        CarryPassSelect(s, xs, tags, i + 2);
      } else {
        var t := SwapAt(tags, i);
        AllBelowOfPermutation(tags, t, |xs|);
        assert SwapAt(Select(xs, tags), i) == Select(xs, t);
        CarryPassSelect(SwapAt(s, i), xs, t, i + 2);
      }
    }
  }

  lemma {:induction false} CarrySortSelect<T>(s: seq<int>, xs: seq<T>, tags: seq<nat>, parity: nat)
    requires parity < 2 && |tags| == |s| && AllBelow(tags, |xs|)
    ensures AllBelow(CarrySort(s, tags, parity), |xs|)
    ensures CarrySort(s, Select(xs, tags), parity) == Select(xs, CarrySort(s, tags, parity))
    decreases Inversions(s)
  {
    AllBelowOfPermutation(tags, CarrySort(s, tags, parity), |xs|);
    var next := PassFrom(s, parity);
    if next != s {
      PassLowersInversions(s, parity);
      CarryPassSelect(s, xs, tags, parity);
      CarrySortSelect(next, xs, CarryPass(s, tags, parity), 1 - parity);
    }
  }

  /**
    The phase is a stable rearrangement: the item it puts at position k is the
    one that started at `origin[k]`, and any two candidates of equal fitness
    keep their relative order.
  */
  lemma SortIsStable<T>(s: seq<int>, xs: seq<T>)
    requires |xs| == |s|
    ensures var origin := CarryByFitness(s, Positions(|s|));
      multiset(origin) == multiset(Positions(|s|))
      && AllBelow(origin, |xs|)
      && CarryByFitness(s, xs) == Select(xs, origin)
      && StableFor(SortByFitness(s).order, origin)
  {
    var ps := Positions(|s|);
    assert Select(xs, ps) == xs;
    CarrySortSelect(s, xs, ps, 0);
    CarrySortStable(s, ps, 0);
  }

  /** Fitness [1, 2, 2] over items a, b, c: the two equal items move up together, giving b, c, a. */
  lemma EqualFitnessKeepsOrder<T>(a: T, b: T, c: T)
    ensures CarryByFitness([1, 2, 2], [a, b, c]) == [b, c, a]
    ensures SortByFitness([1, 2, 2]).order == [2, 2, 1]
  {
    var s, s1, s2 := [1, 2, 2], [2, 1, 2], [2, 2, 1];
    FirstPassOfExample();
    SecondPassOfExample();
    FirstCarryOfExample(a, b, c);
    SecondCarryOfExample(a, b, c);
    PassQuietWhenOrdered(s2, 0);
    assert s1 != s && s2 != s1 by {
      assert s1[0] != s[0] && s2[1] != s1[1];
    }
  }

  /** The first pass over [1, 2, 2], from 0, swaps the pair at 0 only. */
  lemma FirstPassOfExample()
    ensures PassFrom([1, 2, 2], 0) == [2, 1, 2]
  {
    assert SwapAt([1, 2, 2], 0) == [2, 1, 2];
  }

  /** The second pass, over [2, 1, 2] from 1, swaps the pair at 1. */
  lemma SecondPassOfExample()
    ensures PassFrom([2, 1, 2], 1) == [2, 2, 1]
  {
    assert SwapAt([2, 1, 2], 1) == [2, 2, 1];
  }

  /** The items follow the first pass. */
  lemma FirstCarryOfExample<T>(a: T, b: T, c: T)
    ensures CarryPass([1, 2, 2], [a, b, c], 0) == [b, a, c]
  {
    var s, xs := [1, 2, 2], [a, b, c];
    var t := SwapAt(xs, 0);
    assert t[0] == b && t[1] == a && t[2] == c;
    assert t == [b, a, c];
    assert s[0] < s[1];
    assert CarryPass(s, xs, 0) == CarryPass(SwapAt(s, 0), t, 2);
  }

  /** The items follow the second pass. */
  lemma SecondCarryOfExample<T>(a: T, b: T, c: T)
    ensures CarryPass([2, 1, 2], [b, a, c], 1) == [b, c, a]
  {
    var s, xs := [2, 1, 2], [b, a, c];
    var t := SwapAt(xs, 1);
    assert t[0] == b && t[1] == c && t[2] == a;
    assert t == [b, c, a];
    assert s[1] < s[2];
    assert CarryPass(s, xs, 1) == CarryPass(SwapAt(s, 1), t, 3);
  }

  /** The pairs of ordered parity from `start` include every later pair of the same parity. */
  lemma {:induction false} PairsOrderedAt(s: seq<int>, start: nat, p: nat)
    requires PairsOrderedFrom(s, start) && start <= p && (p - start) % 2 == 0
    ensures InOrderAt(s, p)
    decreases p - start
  {
    if p > start && start + 1 < |s| {
      PairsOrderedAt(s, start + 2, p);
    }
  }

  /** A non-increasing order has every pair from `start` in order. */
  lemma {:induction false} SortedHasPairsOrdered(s: seq<int>, start: nat)
    requires NonIncreasing(s)
    ensures PairsOrderedFrom(s, start)
    decreases |s| - start
  {
    if start + 1 < |s| {
      assert InOrderAt(s, start);
      SortedHasPairsOrdered(s, start + 2);
    }
  }

  /** The order is fully non-increasing exactly when the pairs of both parities are in order,
      i.e. when two quiet passes of opposite parity would follow each other. */
  lemma SortedIffBothParitiesOrdered(s: seq<int>)
    ensures NonIncreasing(s) <==> PairsOrderedFrom(s, 0) && PairsOrderedFrom(s, 1)
  {
    if PairsOrderedFrom(s, 0) && PairsOrderedFrom(s, 1) {
      forall p: nat
        ensures InOrderAt(s, p)
      {
        if p % 2 == 0 {
          PairsOrderedAt(s, 0, p);
        } else {
          PairsOrderedAt(s, 1, p);
        }
      }
    }
    if NonIncreasing(s) {
      SortedHasPairsOrdered(s, 0);
      SortedHasPairsOrdered(s, 1);
    }
  }

  /** Fitness [3, 1, 2]: the first pass swaps nothing, so the loop stops with 1 before 2. */
  lemma ExitLeavesOddPairUnsorted()
    ensures SortByFitness([3, 1, 2]) == SortOutcome([3, 1, 2], 1)
    ensures !NonIncreasing([3, 1, 2])
  {
    var s := [3, 1, 2];
    assert PassFrom(s, 2) == s;
    assert PassFrom(s, 0) == s;
    assert !InOrderAt(s, 1);
  }

  /** Fitness [2, 0, 1, 1] also stops after one quiet pass, not at [2, 1, 1, 0]. */
  lemma ExitLeavesFourCandidatesUnsorted()
    ensures SortByFitness([2, 0, 1, 1]) == SortOutcome([2, 0, 1, 1], 1)
    ensures !NonIncreasing([2, 0, 1, 1])
  {
    var s := [2, 0, 1, 1];
    assert PassFrom(s, 4) == s;
    assert PassFrom(s, 2) == s;
    assert PassFrom(s, 0) == s;
    assert !InOrderAt(s, 1);
  }
}
