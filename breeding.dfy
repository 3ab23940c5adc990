/**
  The random parts of the engine, with the randomness passed in.

  Every call of `random.choice(letters)`, `random.randint` or `random.random() < p`
  in the source becomes a value read from an oracle function given by the caller.
  An oracle is indexed by the number of the candidate being made and the position
  inside its text, so that one oracle covers a whole phase. Probabilities are not
  modelled: an oracle may answer anything its type allows.
*/
module Breeding {
  import opened Fitness

  /** The alphabet candidates are drawn from: the lower-case letters and the space. */
  const Letters: string := "abcdefghijklmnopqrstuvwxyz "

  /** An answer of `random.choice(letters)`: a position in `Letters`. */
  type LetterIndex = i: nat | i < 27

  /** The text of a seeded candidate: `target_str_len` independent letter draws. */
  function RandomText(len: nat, draw: (nat, nat) -> LetterIndex, n: nat): (t: string)
    ensures |t| == len
  {
    seq(len, k requires 0 <= k < len => Letters[draw(n, k)])
  }

  /** Every character of a seeded text is drawn from the alphabet. */
  lemma RandomTextUsesLetters(len: nat, draw: (nat, nat) -> LetterIndex, n: nat)
    ensures forall k :: 0 <= k < len ==> RandomText(len, draw, n)[k] in Letters
  {
  }

  /** The position of `c` in `s`. */
  function IndexIn(c: char, s: string): (i: nat)
    requires c in s
    ensures i < |s| && s[i] == c
  {
    if s[0] == c then 0 else 1 + IndexIn(c, s[1..])
  }

  /** Draws that spell out `t`, letter by letter. */
  function Spelling(t: string): (nat, nat) -> LetterIndex {
    (n: nat, k: nat) => if k < |t| && t[k] in Letters then IndexIn(t[k], Letters) else 0
  }

  /** Seeding can produce every text of the right length over the alphabet, and nothing else. */
  lemma RandomTextReachesEveryText(t: string, n: nat)
    requires forall k :: 0 <= k < |t| ==> t[k] in Letters
    ensures RandomText(|t|, Spelling(t), n) == t
  {
    var r := RandomText(|t|, Spelling(t), n);
    forall k | 0 <= k < |t|
      ensures r[k] == t[k]
    {
      assert Spelling(t)(n, k) == IndexIn(t[k], Letters);
    }
  }

  /**
    The draws `breed` makes for the n-th child at position k: `mutate(n, k)` is
    `random.random() < mutation_prob`, `mutant(n, k)` the letter then drawn, and
    `fromA(n, k)` is `random.random() < 0.5`, consulted only without mutation.
  */
  datatype Coins = Coins(mutate: (nat, nat) -> bool, mutant: (nat, nat) -> LetterIndex, fromA: (nat, nat) -> bool)

  /** The character `breed` emits at position k of the n-th child. */
  function ChildChar(a: string, b: string, coins: Coins, n: nat, k: nat): (c: char)
    requires k < |a| && k < |b|
    ensures coins.mutate(n, k) ==> c in Letters
    ensures !coins.mutate(n, k) ==> c == a[k] || c == b[k]
  {
    if coins.mutate(n, k) then Letters[coins.mutant(n, k)]
    else if coins.fromA(n, k) then a[k]
    else b[k]
  }

  /** Uniform crossover with mutation over `zip(parent_a.text, parent_b.text)`. */
  function Crossover(a: string, b: string, coins: Coins, n: nat): (t: string)
    ensures |t| == Min(|a|, |b|)
    ensures forall k :: 0 <= k < |t| ==> t[k] == a[k] || t[k] == b[k] || t[k] in Letters
  {
    seq(Min(|a|, |b|), k requires 0 <= k < Min(|a|, |b|) => ChildChar(a, b, coins, n, k))
  }

  /** Without mutation, each character comes from one of the parents. */
  lemma CrossoverWithoutMutationInherits(a: string, b: string, coins: Coins, n: nat)
    requires forall k :: 0 <= k < Min(|a|, |b|) ==> !coins.mutate(n, k)
    ensures forall k :: 0 <= k < Min(|a|, |b|) ==> Crossover(a, b, coins, n)[k] in {a[k], b[k]}
  {
  }

  /** Without mutation, two parents with the same text have a child with that text. */
  lemma CrossoverOfTwins(a: string, coins: Coins, n: nat)
    requires forall k :: 0 <= k < |a| ==> !coins.mutate(n, k)
    ensures Crossover(a, a, coins, n) == a
  {
  }

  /** When every position mutates, the child is a fresh random text: the parents give only its length. */
  lemma CrossoverFullMutation(a: string, b: string, coins: Coins, n: nat)
    requires forall k :: 0 <= k < Min(|a|, |b|) ==> coins.mutate(n, k)
    ensures Crossover(a, b, coins, n) == RandomText(Min(|a|, |b|), coins.mutant, n)
  {
  }

  /**
    The parent indices of `breed_new`: `i = randint(0, num_fit - 1)` and
    `j = (i + randint(1, num_fit - 1)) % num_fit`, with each `randint` given as
    a raw draw reduced into its range.
  */
  function ParentIndices(numFit: nat, first: nat, offset: nat): (ij: (nat, nat))
    requires numFit >= 2
    ensures ij.0 < numFit && ij.1 < numFit && ij.0 != ij.1
  {
    var i := first % numFit;
    var step := 1 + offset % (numFit - 1);
    var j := (i + step) % numFit;
    assert j == if i + step < numFit then i + step else i + step - numFit by {
      ModOfLessThanTwice(i + step, numFit);
    }
    (i, j)
  }

  lemma ModOfLessThanTwice(x: nat, m: nat)
    requires 0 < m && x < 2 * m
    ensures x % m == if x < m then x else x - m
  {
    if x >= m {
      assert x == 1 * m + (x - m);
    }
  }

  /** Every ordered pair of distinct survivors can be drawn as the two parents. */
  lemma EveryParentPairReachable(numFit: nat, i: nat, j: nat)
    requires numFit >= 2 && i < numFit && j < numFit && i != j
    ensures var offset := if i < j then j - i - 1 else j + numFit - i - 1;
      ParentIndices(numFit, i, offset) == (i, j)
  {
    var offset := if i < j then j - i - 1 else j + numFit - i - 1;
    ModOfLessThanTwice(i, numFit);
    ModOfLessThanTwice(offset, numFit - 1);
    ModOfLessThanTwice(i + 1 + offset, numFit);
  }
}
