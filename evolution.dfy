/**
  The evolution engine: candidates, the population list the phases mutate in
  place, and the convergence test of the main loop.

  A phase of the source is a generator that mutates the list and yields one label
  per step. Here each phase is a method that runs the generator to completion and
  returns the number of labels it would have yielded. The random draws come in as
  oracle parameters (see module Breeding).
*/
module Evolution {
  import opened Fitness
  import opened Transposition
  import opened Breeding

  /**
    One member of the population. Its text is never reassigned after creation; its
    fitness is -1 until it is scored, and `inFocus` marks it for the display.
  */
  class Candidate {
    const text: string
    var fitness: int
    var inFocus: bool

    /** `Candidate(text=..., in_focus=...)`: the dataclass default leaves the fitness at -1. */
    constructor (text: string, inFocus: bool)
      ensures this.text == text && fitness == -1 && this.inFocus == inFocus
    {
      this.text := text;
      fitness := -1;
      this.inFocus := inFocus;
    }

    /** `set_fitness`: the number of positions of `zip(text, target)` that agree. */
    method SetFitness(target: string)
      modifies this
      ensures fitness == Similarity(text, target)
      ensures 0 <= fitness <= Min(|text|, |target|)
      ensures inFocus == old(inFocus)
    {
      fitness := Similarity(text, target);
    }
  }

  /** The fitness values of a list of candidates, in list order. */
  function FitnessesOf(cs: seq<Candidate>): (f: seq<int>)
    reads cs
    ensures |f| == |cs|
  {
    seq(|cs|, i reads cs requires 0 <= i < |cs| => cs[i].fitness)
  }

  /** The fitness a candidate has once the scoring loop has passed over it. */
  function Scored(fitness: int, text: string, target: string): (f: int)
    ensures 0 <= f
    ensures fitness >= 0 ==> f == fitness
    ensures fitness < 0 ==> f <= Min(|text|, |target|)
  {
    if fitness >= 0 then fitness else Similarity(text, target)
  }

  /** The fitness values the scoring loop leaves behind, in list order. */
  function ScoredFitnesses(cs: seq<Candidate>, target: string): (f: seq<int>)
    reads cs
    ensures |f| == |cs|
  {
    seq(|cs|, i reads cs requires 0 <= i < |cs| => Scored(cs[i].fitness, cs[i].text, target))
  }

  /** The number of unscored values (the -1 sentinel, or any negative value). */
  function CountUnscored(f: seq<int>): (n: nat)
    ensures n <= |f|
  {
    if f == [] then 0 else CountUnscored(f[..|f| - 1]) + (if f[|f| - 1] < 0 then 1 else 0)
  }

  /** Every text in the list has length `len`. */
  ghost predicate TextsHaveLength(cs: seq<Candidate>, len: nat) {
    forall i :: 0 <= i < |cs| ==> |cs[i].text| == len
  }

  /** No candidate object occurs twice in the list. */
  ghost predicate Distinct(cs: seq<Candidate>) {
    forall c | c in multiset(cs) :: multiset(cs)[c] == 1
  }

  /** Two positions of a list without repeats hold different candidates. */
  lemma DistinctAt(cs: seq<Candidate>, i: nat, j: nat)
    requires Distinct(cs) && i < j < |cs|
    ensures cs[i] != cs[j]
  {
    var x := cs[i];
    assert cs == cs[..j] + cs[j..];
    assert cs[..j][i] == x;
    assert multiset(cs)[x] == multiset(cs[..j])[x] + multiset(cs[j..])[x];
    assert multiset(cs[j..])[x] == 0;
    assert cs[j..][0] == cs[j];
  }

  /** A prefix of a list without repeats has no repeats. */
  lemma DistinctPrefix(cs: seq<Candidate>, n: nat)
    requires Distinct(cs) && n <= |cs|
    ensures Distinct(cs[..n])
  {
    assert cs == cs[..n] + cs[n..];
    forall c | c in multiset(cs[..n])
      ensures multiset(cs[..n])[c] == 1
    {
      assert multiset(cs)[c] == multiset(cs[..n])[c] + multiset(cs[n..])[c];
    }
  }

  /** Exchanging two neighbouring candidates exchanges their fitness values. */
  lemma FitnessesAfterSwap(cs: seq<Candidate>, i: nat)
    requires i + 1 < |cs|
    ensures FitnessesOf(SwapAt(cs, i)) == SwapAt(FitnessesOf(cs), i)
  {
    var l := FitnessesOf(SwapAt(cs, i));
    var r := SwapAt(FitnessesOf(cs), i);
    forall k | 0 <= k < |l| ensures l[k] == r[k] {}
  }

  /** Every element of a rearranged list comes from the original one. */
  lemma PermutationKeepsMembers<T>(a: seq<T>, b: seq<T>)
    requires multiset(a) == multiset(b)
    ensures forall x :: x in a ==> x in b
  {
    forall x | x in a
      ensures x in b
    {
      assert x in multiset(a);
    }
  }

  lemma InPermutation<T>(a: seq<T>, b: seq<T>, x: T)
    requires multiset(a) == multiset(b) && x in a
    ensures x in b
  {
    assert x in multiset(a);
  }

  /** The text of the n-th child `breed_new` makes from the survivors. */
  function ChildText(survivors: seq<Candidate>, first: nat -> nat, offset: nat -> nat, coins: Coins, n: nat): string
    requires |survivors| >= 2
  {
    var ij := ParentIndices(|survivors|, first(n), offset(n));
    Crossover(survivors[ij.0].text, survivors[ij.1].text, coins, n)
  }

  /** Every child is a crossover of two different survivors. */
  lemma ChildOfTwoSurvivors(survivors: seq<Candidate>, first: nat -> nat, offset: nat -> nat, coins: Coins, n: nat)
    requires |survivors| >= 2
    ensures exists i, j ::
      0 <= i < |survivors| && 0 <= j < |survivors| && i != j
      && ChildText(survivors, first, offset, coins, n) == Crossover(survivors[i].text, survivors[j].text, coins, n)
  {
    var ij := ParentIndices(|survivors|, first(n), offset(n));
    assert ChildText(survivors, first, offset, coins, n) == Crossover(survivors[ij.0].text, survivors[ij.1].text, coins, n);
  }

  /** Children of survivors whose texts all have one length have that length too. */
  lemma ChildKeepsTextLength(survivors: seq<Candidate>, first: nat -> nat, offset: nat -> nat, coins: Coins, n: nat, len: nat)
    requires |survivors| >= 2 && TextsHaveLength(survivors, len)
    ensures |ChildText(survivors, first, offset, coins, n)| == len
  {
    var ij := ParentIndices(|survivors|, first(n), offset(n));
    assert |survivors[ij.0].text| == len && |survivors[ij.1].text| == len;
  }

  /** `breed`: one child by uniform crossover with mutation, unscored and not in focus. */
  method Breed(parentA: Candidate, parentB: Candidate, coins: Coins, n: nat) returns (child: Candidate)
    ensures fresh(child)
    ensures child.text == Crossover(parentA.text, parentB.text, coins, n)
    ensures child.fitness == -1 && !child.inFocus
  {
    var a, b := parentA.text, parentB.text;
    var text := "";
    for k := 0 to Min(|a|, |b|)
      invariant |text| == k
      invariant forall j :: 0 <= j < k ==> text[j] == ChildChar(a, b, coins, n, j)
    {
      if coins.mutate(n, k) {
        text := text + [Letters[coins.mutant(n, k)]];
      } else if coins.fromA(n, k) {
        text := text + [a[k]];
      } else {
        text := text + [b[k]];
      }
    }
    child := new Candidate(text, false);
  }

  /**
    The loop body of a sort pass at `i`: past the last pair it does nothing
    (`continue`); otherwise the pair (i, i + 1) is swapped when the first is
    strictly less fit.
  */
  method CompareAt(m: seq<Candidate>, ghost fs: seq<int>, i: nat) returns (r: seq<Candidate>, ghost rs: seq<int>, swapped: bool)
    requires fs == FitnessesOf(m)
    ensures swapped <==> i + 1 < |m| && fs[i] < fs[i + 1]
    ensures r == if swapped then SwapAt(m, i) else m
    ensures rs == FitnessesOf(r) && rs == if swapped then SwapAt(fs, i) else fs
    ensures PassFrom(rs, i + 2) == PassFrom(fs, i)
    ensures CarryPass(rs, r, i + 2) == CarryPass(fs, m, i)
    ensures PairsOrderedFrom(fs, i) <==> !swapped && PairsOrderedFrom(fs, i + 2)
  {
    if i + 1 >= |m| {
      PassEnds(fs, m, i);
      PassEnds(fs, m, i + 2);
      return m, fs, false;
    }
    PassFromStep(fs, i);
    CarryPassStep(fs, m, i);
    var a, b := m[i], m[i + 1];
    swapped := a.fitness < b.fitness;
    if swapped {
      FitnessesAfterSwap(m, i);
      r := m[i := b][i + 1 := a];
      rs := SwapAt(fs, i);
    } else {
      r, rs := m, fs;
    }
  }

  /**
    The loop of one sort pass, run over the list value `m0`. It swaps a pair
    exactly when some pair it reaches is out of order, and each candidate goes
    where the pass over the fitness values sends its value.
  */
  method SortPass(m0: seq<Candidate>, start: nat) returns (m: seq<Candidate>, madeSwap: bool)
    ensures m == CarryPass(FitnessesOf(m0), m0, start)
    ensures multiset(m) == multiset(m0)
    ensures FitnessesOf(m) == PassFrom(FitnessesOf(m0), start)
    ensures !madeSwap <==> PairsOrderedFrom(FitnessesOf(m0), start)
    ensures !madeSwap ==> m == m0
  {
    ghost var before := FitnessesOf(m0);
    ghost var goal := PassFrom(before, start);
    ghost var carried := CarryPass(before, m0, start);
    ghost var fs := before;
    m := m0;
    madeSwap := false;
    var i: nat := start;
    while i < |m|
      invariant |m| == |m0|
      invariant fs == FitnessesOf(m)
      invariant PassFrom(fs, i) == goal
      invariant CarryPass(fs, m, i) == carried
      invariant !madeSwap ==>
        m == m0 && fs == before && PairsOrderedFrom(before, start) == PairsOrderedFrom(before, i)
      invariant madeSwap ==> !PairsOrderedFrom(before, start)
      decreases |m| - i
    {
      var swapped;
      m, fs, swapped := CompareAt(m, fs, i);
      madeSwap := madeSwap || swapped;
      i := i + 2;
    }
    PassEnds(fs, m, i);
  }

  /**
    One turn of the `while made_swap` loop: `evens` is flipped, and a pass runs
    from `int(evens)`. A quiet pass ends the sort loop as `SortFrom` says; any
    other pass removes an inversion and hands over to the other parity.
  */
  method SortTurn(m: seq<Candidate>, ghost fs: seq<int>, evens: bool)
      returns (r: seq<Candidate>, ghost rs: seq<int>, madeSwap: bool, flipped: bool)
    requires fs == FitnessesOf(m)
    ensures flipped == !evens
    ensures var parity := if evens then 0 else 1;
      rs == PassFrom(fs, parity) && r == CarryPass(fs, m, parity)
    ensures multiset(r) == multiset(m) && rs == FitnessesOf(r)
    ensures var parity := if evens then 0 else 1;
      if madeSwap then
        Inversions(rs) < Inversions(fs)
        && SortFrom(fs, parity) == SortOutcome(SortFrom(rs, 1 - parity).order, SortFrom(rs, 1 - parity).passes + 1)
        && CarrySort(fs, m, parity) == CarrySort(rs, r, 1 - parity)
      else
        SortFrom(fs, parity) == SortOutcome(fs, 1) && rs == fs && r == m && CarrySort(fs, m, parity) == m
  {
    flipped := !evens;
    var start := if flipped then 1 else 0;
    SortFromStep(fs, start);
    CarrySortStep(fs, m, start);
    r, madeSwap := SortPass(m, start);
    rs := PassFrom(fs, start);
    if !madeSwap {
      PassQuietWhenOrdered(fs, start);
    }
  }

  /**
    The `while made_swap` loop of `order_by_fitness`, run over the list value
    `m0`: passes of alternating parity until one makes no swap. The first pass
    starts at 0, since `evens` is flipped to false before it.
  */
  method SortLoop(m0: seq<Candidate>) returns (m: seq<Candidate>, passes: nat)
    ensures m == CarryByFitness(FitnessesOf(m0), m0)
    ensures multiset(m) == multiset(m0)
    ensures FitnessesOf(m) == SortByFitness(FitnessesOf(m0)).order
    ensures passes == SortByFitness(FitnessesOf(m0)).passes
  {
    ghost var total := SortFrom(FitnessesOf(m0), 0);
    ghost var carried := CarrySort(FitnessesOf(m0), m0, 0);
    ghost var fs := FitnessesOf(m0);
    m := m0;
    var madeSwap := true;
    var evens := true;
    passes := 0;
    while madeSwap
      invariant multiset(m) == multiset(m0)
      invariant fs == FitnessesOf(m)
      invariant madeSwap ==>
        SortFrom(fs, if evens then 0 else 1).order == total.order
        && passes + SortFrom(fs, if evens then 0 else 1).passes == total.passes
        && CarrySort(fs, m, if evens then 0 else 1) == carried
      invariant !madeSwap ==> fs == total.order && passes == total.passes && m == carried
      decreases Inversions(fs), madeSwap
    {
      m, fs, madeSwap, evens := SortTurn(m, fs, evens);
      passes := passes + 1;
    }
  }

  /**
    The length of Python's slice `s[:stop]` on a list of length `len`: a negative
    `stop` counts from the end, and the slice is clipped to the list.
  */
  function SliceLength(len: nat, stop: int): (n: nat)
    ensures n <= len
  {
    if stop >= 0 then Min(stop, len) else if len + stop > 0 then len + stop else 0
  }

  /** `all(candidate.text == target_str for candidate in cs)`, walked front to back. */
  function AllTextsAre(cs: seq<Candidate>, target: string): (b: bool)
    ensures b <==> forall i :: 0 <= i < |cs| ==> cs[i].text == target
  {
    if cs == [] then true
    else
      assert forall i :: 1 <= i < |cs| ==> cs[1..][i - 1] == cs[i];
      cs[0].text == target && AllTextsAre(cs[1..], target)
  }

  /**
    The stopping test of the main loop: with `goal = num_fit_to_keep // 2` (floor
    division, which agrees with Dafny's `/` for the divisor 2), the list holds at
    least `goal` candidates and the texts of `population[:goal]` all equal the target.
  */
  function Converged(cs: seq<Candidate>, target: string, numFitToKeep: int): (c: bool)
    ensures c ==> numFitToKeep / 2 <= |cs|
    ensures c ==> forall i :: 0 <= i < SliceLength(|cs|, numFitToKeep / 2) ==> cs[i].text == target
  {
    var goal := numFitToKeep / 2;
    var n := SliceLength(|cs|, goal);
    assert forall i :: 0 <= i < n ==> cs[..n][i] == cs[i];
    |cs| >= goal && AllTextsAre(cs[..n], target)
  }

  /** For a non-negative number to keep, the test holds exactly when the first half of that number are the target. */
  lemma ConvergedIff(cs: seq<Candidate>, target: string, numFitToKeep: int)
    requires numFitToKeep >= 0
    ensures Converged(cs, target, numFitToKeep)
        <==> numFitToKeep / 2 <= |cs| && forall i :: 0 <= i < numFitToKeep / 2 ==> cs[i].text == target
  {
    var n := SliceLength(|cs|, numFitToKeep / 2);
    assert forall i :: 0 <= i < n ==> cs[..n][i] == cs[i];
  }

  /** A negative number to keep makes `goal` negative: the slice then drops the last `-goal` candidates and the length test always passes. */
  lemma ConvergedWithNegativeKeep(cs: seq<Candidate>, target: string, numFitToKeep: int)
    requires numFitToKeep < 0
    ensures Converged(cs, target, numFitToKeep)
        <==> forall i :: 0 <= i < |cs| + numFitToKeep / 2 ==> cs[i].text == target
  {
    var n := SliceLength(|cs|, numFitToKeep / 2);
    assert forall i :: 0 <= i < n ==> cs[..n][i] == cs[i];
  }

  /** Once the test holds, each of the first `num_fit_to_keep // 2` candidates scores the full length of the target. */
  lemma ConvergedElitesScoreFull(cs: seq<Candidate>, target: string, numFitToKeep: int, i: nat)
    requires numFitToKeep >= 0 && Converged(cs, target, numFitToKeep) && i < numFitToKeep / 2
    ensures i < |cs| && Similarity(cs[i].text, target) == |target|
  {
    ConvergedIff(cs, target, numFitToKeep);
    SimilarityWithItself(target);
  }

  /** The list of candidates the phases share and mutate in place. */
  class Population {
    var members: seq<Candidate>

    ghost predicate Valid()
      reads this
    {
      Distinct(members)
    }

    /** `population: List[Candidate] = []`. */
    constructor ()
      ensures Valid() && members == []
    {
      members := [];
    }

    /** `reset_focus`: clears every focus flag and changes nothing else. */
    method ResetFocus()
      modifies members
      ensures forall i :: 0 <= i < |members| ==> !members[i].inFocus
      ensures forall i :: 0 <= i < |members| ==> members[i].fitness == old(members[i].fitness)
      ensures FitnessesOf(members) == old(FitnessesOf(members))
    {
      for k := 0 to |members|
        invariant forall i :: 0 <= i < k ==> !members[i].inFocus
        invariant forall i :: 0 <= i < |members| ==> members[i].fitness == old(members[i].fitness)
      {
        members[k].inFocus := false;
      }
    }

    /** One step of `seed_population`: focus moves to a new random candidate appended at the end. */
    method SeedOne(targetLength: nat, draw: (nat, nat) -> LetterIndex, n: nat)
      requires Valid()
      modifies this, members
      ensures Valid()
      ensures |members| == old(|members|) + 1 && members[..old(|members|)] == old(members)
      ensures forall q :: 0 <= q < old(|members|) ==> members[q].fitness == old(members[q].fitness)
      ensures fresh(members[old(|members|)])
      ensures members[old(|members|)].fitness == -1
      ensures members[old(|members|)].text == RandomText(targetLength, draw, n)
      ensures forall q :: 0 <= q < |members| ==> members[q].inFocus == (q == old(|members|))
    {
      ResetFocus();
      var c := new Candidate(RandomText(targetLength, draw, n), true);
      members := members + [c];
    }

    /**
      `seed_population`: appends random candidates until the list holds
      `populationSize`, one label each; the n-th new text is spelt by `draw(n, _)`.
    */
    method Seed(populationSize: int, targetLength: nat, draw: (nat, nat) -> LetterIndex) returns (steps: nat)
      requires Valid()
      modifies this, members
      ensures Valid()
      ensures steps == if populationSize > old(|members|) then populationSize - old(|members|) else 0
      ensures |members| == old(|members|) + steps
      ensures members[..old(|members|)] == old(members)
      ensures forall q :: 0 <= q < old(|members|) ==> members[q].fitness == old(members[q].fitness)
      ensures forall q :: old(|members|) <= q < |members| ==>
        fresh(members[q]) && members[q].fitness == -1
        && members[q].text == RandomText(targetLength, draw, q - old(|members|))
      ensures steps > 0 ==> forall q :: 0 <= q < |members| ==> members[q].inFocus == (q == |members| - 1)
      ensures steps == 0 ==> forall q :: 0 <= q < |members| ==> members[q].inFocus == old(members[q].inFocus)
    {
      steps := if populationSize > |members| then populationSize - |members| else 0;
      if steps > 0 {
        SeedMany(steps, targetLength, draw);
      }
    }

    /** The loop of `seed_population` once it is known to run `count` times. */
    method SeedMany(count: nat, targetLength: nat, draw: (nat, nat) -> LetterIndex)
      requires Valid() && count > 0
      modifies this, members
      ensures Valid()
      ensures |members| == old(|members|) + count
      ensures members[..old(|members|)] == old(members)
      ensures forall q :: 0 <= q < old(|members|) ==> members[q].fitness == old(members[q].fitness)
      ensures forall q :: old(|members|) <= q < |members| ==>
        fresh(members[q]) && members[q].fitness == -1
        && members[q].text == RandomText(targetLength, draw, q - old(|members|))
      ensures forall q :: 0 <= q < |members| ==> members[q].inFocus == (q == |members| - 1)
    {
      var start := |members|;
      for k := 0 to count
        invariant Valid()
        invariant |members| == start + k
        invariant members[..start] == old(members)
        invariant forall q :: 0 <= q < start ==> members[q].fitness == old(members[q].fitness)
        invariant forall q :: start <= q < |members| ==>
          fresh(members[q]) && members[q].fitness == -1
          && members[q].text == RandomText(targetLength, draw, q - start)
        invariant k > 0 ==> forall q :: 0 <= q < |members| ==> members[q].inFocus == (q == |members| - 1)
      {
        SeedOne(targetLength, draw, k);
      }
    }

    /**
      The scoring loop of `order_by_fitness`: every unscored candidate gets its
      similarity with the target, one label each; scored ones are skipped.
    */
    method ScoreUnscored(target: string) returns (scored: nat)
      requires Valid()
      modifies members
      ensures FitnessesOf(members) == old(ScoredFitnesses(members, target))
      ensures forall i :: 0 <= i < |members| ==> members[i].fitness == Scored(old(members[i].fitness), members[i].text, target)
      ensures scored == old(CountUnscored(FitnessesOf(members)))
    {
      ghost var before := FitnessesOf(members);
      ghost var goal := ScoredFitnesses(members, target);
      scored := 0;
      for k := 0 to |members|
        invariant forall i :: 0 <= i < k ==> members[i].fitness == goal[i]
        invariant forall i :: k <= i < |members| ==> members[i].fitness == before[i]
        invariant scored == CountUnscored(before[..k])
      {
        assert before[..k + 1][..k] == before[..k];
        var did := ScoreStep(k, target);
        if did {
          scored := scored + 1;
        }
      }
      assert before[..|members|] == before;
      assert FitnessesOf(members) == goal;
    }

    /**
      One turn of the scoring loop: a scored candidate is skipped; an unscored one
      gets its similarity and takes the focus. Only the k-th candidate changes fitness.
    */
    method ScoreStep(k: nat, target: string) returns (scored: bool)
      requires Valid() && k < |members|
      modifies members
      ensures scored <==> old(members[k].fitness) < 0
      ensures members[k].fitness == Scored(old(members[k].fitness), members[k].text, target)
      ensures forall i :: 0 <= i < |members| && i != k ==> members[i].fitness == old(members[i].fitness)
      ensures scored ==> forall i :: 0 <= i < |members| ==> members[i].inFocus == (i == k)
      ensures !scored ==> forall i :: 0 <= i < |members| ==> members[i].inFocus == old(members[i].inFocus)
    {
      var c := members[k];
      scored := c.fitness < 0;
      if !scored {
        return;
      }
      ResetFocus();
      forall i | 0 <= i < |members| && i != k
        ensures members[i] != c
      {
        if i < k { DistinctAt(members, i, k); } else { DistinctAt(members, k, i); }
      }
      c.SetFitness(target);
      c.inFocus := true;
    }

    /**
      The sort phase of `order_by_fitness`: focus is cleared, then the sort loop
      runs; one label per pass.
    */
    method SortPhase() returns (passes: nat)
      requires Valid()
      modifies this, members
      ensures Valid()
      ensures multiset(members) == old(multiset(members))
      ensures forall c :: c in old(members) ==> c.fitness == old(c.fitness)
      ensures members == CarryByFitness(old(FitnessesOf(members)), old(members))
      ensures FitnessesOf(members) == SortByFitness(old(FitnessesOf(members))).order
      ensures passes == SortByFitness(old(FitnessesOf(members))).passes
      ensures forall c :: c in members ==> !c.inFocus
    {
      ResetFocus();
      ghost var cleared := members;
      passes := SortMembers();
      PermutationKeepsMembers(members, cleared);
    }

    /** The `while made_swap` loop on the list itself: only the list is reassigned. */
    method SortMembers() returns (passes: nat)
      requires Valid()
      modifies this
      ensures Valid()
      ensures multiset(members) == old(multiset(members))
      ensures members == CarryByFitness(old(FitnessesOf(members)), old(members))
      ensures FitnessesOf(members) == SortByFitness(old(FitnessesOf(members))).order
      ensures passes == SortByFitness(old(FitnessesOf(members))).passes
    {
      var m;
      m, passes := SortLoop(members);
      members := m;
    }

    /** One turn of `remove_unfit`: the last candidate goes, and the new last one takes the focus. */
    method DropLast()
      requires Valid() && |members| >= 2
      modifies this, members
      ensures Valid()
      ensures members == old(members[..|members| - 1])
      ensures forall i :: 0 <= i < |members| ==> members[i].fitness == old(members[i].fitness)
      ensures forall i :: 0 <= i < |members| ==> members[i].inFocus == (i == |members| - 1 || old(members[i].inFocus))
    {
      var last := |members| - 2;
      forall i | 0 <= i < last
        ensures members[i] != members[last]
      {
        DistinctAt(members, i, last);
      }
      DistinctPrefix(members, |members| - 1);
      members := members[..|members| - 1];
      members[last].inFocus := true;
    }

    /**
      `remove_unfit`: pops from the tail until `numFitToKeep` candidates are left,
      one label per pop, then clears the focus. When it pops, `population[-1]` must
      exist after the pop, so at least one candidate must be kept.
    */
    method RemoveUnfit(numFitToKeep: int) returns (steps: nat)
      requires Valid()
      requires |members| > numFitToKeep ==> numFitToKeep >= 1
      modifies this, members
      ensures Valid()
      ensures steps == if old(|members|) > numFitToKeep then old(|members|) - numFitToKeep else 0
      ensures members == old(members[..|members| - steps])
      ensures forall i :: 0 <= i < |members| ==> members[i].fitness == old(members[i].fitness)
      ensures forall i :: 0 <= i < |members| ==> !members[i].inFocus
    {
      steps := 0;
      while |members| > numFitToKeep
        invariant Valid()
        invariant |members| + steps == old(|members|)
        invariant |members| >= numFitToKeep || steps == 0
        invariant members == old(members)[..|members|]
        invariant forall i :: 0 <= i < |members| ==> members[i].fitness == old(members[i].fitness)
        decreases |members|
      {
        DropLast();
        steps := steps + 1;
      }
      ResetFocus();
    }

    /** `reset_focus` followed by focusing the two parents at positions i and j. */
    method FocusPair(i: nat, j: nat)
      requires Valid() && i < |members| && j < |members|
      modifies members
      ensures forall q :: 0 <= q < |members| ==> members[q].fitness == old(members[q].fitness)
      ensures forall q :: 0 <= q < |members| ==> members[q].inFocus == (q == i || q == j)
    {
      var parentA, parentB := members[i], members[j];
      ResetFocus();
      forall q | 0 <= q < |members| && q != i && q != j
        ensures members[q] != parentA && members[q] != parentB
      {
        if q < i { DistinctAt(members, q, i); } else { DistinctAt(members, i, q); }
        if q < j { DistinctAt(members, q, j); } else { DistinctAt(members, j, q); }
      }
      parentA.inFocus := true;
      parentB.inFocus := true;
    }

    /**
      One turn of `breed_new`: the n-th child of the first `numFit` candidates is
      appended; it and its two parents hold the focus.
    */
    method BreedOne(numFit: nat, first: nat -> nat, offset: nat -> nat, coins: Coins, n: nat)
      requires Valid() && 2 <= numFit <= |members|
      modifies this, members
      ensures Valid()
      ensures |members| == old(|members|) + 1 && members[..old(|members|)] == old(members)
      ensures forall q :: 0 <= q < old(|members|) ==> members[q].fitness == old(members[q].fitness)
      ensures fresh(members[old(|members|)]) && members[old(|members|)].fitness == -1
      ensures members[old(|members|)].text == ChildText(old(members[..numFit]), first, offset, coins, n)
      ensures var ij := ParentIndices(numFit, first(n), offset(n));
        forall q :: 0 <= q < |members| ==> members[q].inFocus == (q == ij.0 || q == ij.1 || q == old(|members|))
    {
      var ij := ParentIndices(numFit, first(n), offset(n));
      FocusPair(ij.0, ij.1);
      var parentA, parentB := members[ij.0], members[ij.1];
      var child := Breed(parentA, parentB, coins, n);
      child.inFocus := true;
      members := members + [child];
    }

    /**
      `breed_new`: appends children of the `numFit` survivors until the list holds
      `populationSize`, one label each. Drawing two different parents needs two
      survivors, so at least two must be there when a child is made.
    */
    method BreedNew(populationSize: int, first: nat -> nat, offset: nat -> nat, coins: Coins) returns (steps: nat)
      requires Valid()
      requires |members| < populationSize ==> |members| >= 2
      modifies this, members
      ensures Valid()
      ensures steps == if populationSize > old(|members|) then populationSize - old(|members|) else 0
      ensures |members| == old(|members|) + steps
      ensures members[..old(|members|)] == old(members)
      ensures forall q :: 0 <= q < old(|members|) ==> members[q].fitness == old(members[q].fitness)
      ensures forall q :: old(|members|) <= q < |members| ==>
        fresh(members[q]) && members[q].fitness == -1
        && members[q].text == ChildText(old(members), first, offset, coins, q - old(|members|))
    {
      var numFit := |members|;
      steps := if populationSize > numFit then populationSize - numFit else 0;
      for k := 0 to steps
        invariant Valid()
        invariant |members| == numFit + k
        invariant members[..numFit] == old(members)
        invariant forall q :: 0 <= q < numFit ==> members[q].fitness == old(members[q].fitness)
        invariant forall q :: numFit <= q < |members| ==>
          fresh(members[q]) && members[q].fitness == -1
          && members[q].text == ChildText(old(members), first, offset, coins, q - numFit)
      {
        BreedOne(numFit, first, offset, coins, k);
      }
    }

    /** `order_by_fitness`: scores the unscored candidates, then runs the transposition passes; one label per score and per pass. */
    method OrderByFitness(target: string) returns (steps: nat)
      requires Valid()
      modifies this, members
      ensures Valid()
      ensures multiset(members) == old(multiset(members))
      ensures forall c :: c in old(members) ==> c.fitness == Scored(old(c.fitness), c.text, target)
      ensures forall i :: 0 <= i < |members| ==> members[i].fitness >= 0
      ensures FitnessesOf(members) == SortByFitness(old(ScoredFitnesses(members, target))).order
      ensures members == CarryByFitness(old(ScoredFitnesses(members, target)), old(members))
      ensures steps == old(CountUnscored(FitnessesOf(members))) + SortByFitness(old(ScoredFitnesses(members, target))).passes
      ensures PairsOrderedFrom(FitnessesOf(members), LastParity(0, SortByFitness(old(ScoredFitnesses(members, target))).passes))
      ensures forall i :: 0 <= i < |members| ==> !members[i].inFocus
    {
      ghost var goal := ScoredFitnesses(members, target);
      var scored := ScoreUnscored(target);
      label Scoring:
      var passes := SortPhase();
      steps := scored + passes;
      forall c | c in old(members)
        ensures c.fitness == Scored(old(c.fitness), c.text, target)
      {
        var i :| 0 <= i < |old(members)| && old(members)[i] == c;
        assert old@Scoring(c.fitness) == Scored(old(c.fitness), c.text, target);
      }
      forall i | 0 <= i < |members|
        ensures members[i].fitness >= 0
      {
        InPermutation(members, old(members), members[i]);
      }
    }
  }
}
