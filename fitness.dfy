/**
  Fitness of a candidate text: the Hamming similarity with the target phrase.

  `Candidate.set_fitness` sums one for every position of `zip(text, target)`
  whose two characters agree. `zip` stops at the shorter of the two strings,
  so positions past the shorter length are never counted; the texts are not
  required to have the same length.
*/
module Fitness {

  function Min(a: int, b: int): int {
    if a <= b then a else b
  }

  /** The number of agreeing positions, walked as `zip` walks the two strings. */
  function Similarity(text: string, target: string): (n: nat)
    ensures n <= |text| && n <= |target|
  {
    if text == [] || target == [] then 0
    else (if text[0] == target[0] then 1 else 0) + Similarity(text[1..], target[1..])
  }

  /** Reference definition: the set of positions, from `lo` on, where both strings agree. */
  ghost function MatchesFrom(text: string, target: string, lo: nat): set<nat> {
    set k: nat | lo <= k < |text| && k < |target| && text[k] == target[k]
  }

  ghost function Matches(text: string, target: string): set<nat> {
    MatchesFrom(text, target, 0)
  }

  lemma {:induction false} SimilarityFrom(text: string, target: string, lo: nat)
    requires lo <= Min(|text|, |target|)
    ensures Similarity(text[lo..], target[lo..]) == |MatchesFrom(text, target, lo)|
    decreases Min(|text|, |target|) - lo
  {
    if lo == Min(|text|, |target|) {
      assert MatchesFrom(text, target, lo) == {};
    } else {
      SimilarityFrom(text, target, lo + 1);
      assert text[lo..][1..] == text[lo + 1..];
      assert target[lo..][1..] == target[lo + 1..];
      var head: set<nat> := if text[lo] == target[lo] then {lo} else {};
      assert MatchesFrom(text, target, lo) == head + MatchesFrom(text, target, lo + 1);
      assert lo !in MatchesFrom(text, target, lo + 1);
    }
  }

  /** The fitness is exactly the number of positions where text and target agree. */
  lemma SimilarityCountsMatches(text: string, target: string)
    ensures Similarity(text, target) == |Matches(text, target)|
  {
    SimilarityFrom(text, target, 0);
    assert text[0..] == text && target[0..] == target;
  }

  /** The fitness reaches its maximum, the shorter length, exactly when every compared position agrees. */
  lemma {:induction false} SimilarityFullIff(text: string, target: string)
    ensures Similarity(text, target) == Min(|text|, |target|)
        <==> forall k :: 0 <= k < |text| && k < |target| ==> text[k] == target[k]
  {
    if text != [] && target != [] {
      SimilarityFullIff(text[1..], target[1..]);
      if text[0] == target[0] {
        forall k | 0 <= k < |text| && k < |target| && forall j :: 0 <= j < |text| - 1 && j < |target| - 1 ==> text[1..][j] == target[1..][j]
          ensures text[k] == target[k]
        {
          if k > 0 { assert text[1..][k - 1] == text[k]; }
        }
      }
    }
  }

  /** A text compared with itself scores its full length. */
  lemma SimilarityWithItself(text: string)
    ensures Similarity(text, text) == |text|
  {
    SimilarityFullIff(text, text);
  }

  /** Comparing text with target or target with text gives the same score. */
  lemma {:induction false} SimilaritySymmetric(text: string, target: string)
    ensures Similarity(text, target) == Similarity(target, text)
  {
    if text != [] && target != [] {
      SimilaritySymmetric(text[1..], target[1..]);
    }
  }
}
