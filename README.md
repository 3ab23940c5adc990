# Muad'Dib string evolution: a verified model of the engine

The program evolves a population of random strings towards a target phrase.
It does this with a small genetic algorithm that runs on one list of candidates, changed in place.
Each candidate has:
- a text;
- a fitness, which is `-1` until the candidate is scored;
- an `in_focus` flag, which the display uses to highlight it.

A round of the main loop chains four phases. Each phase is a generator that changes the list and yields one label per step:

1. `seed_population` tops the list up with random texts.
2. `order_by_fitness` scores the unscored candidates. It then reorders the list with odd/even transposition passes that move fitter candidates forward, stopping after the first pass that swaps nothing, so the result need not be fully sorted.
3. `remove_unfit` pops candidates from the tail until `num_fit_to_keep` remain.
4. `breed_new` refills the list with children of two different survivors. Each child is made by uniform crossover with mutation.

The loop stops when the first `num_fit_to_keep // 2` texts equal the target.

The model has four modules:

- `Fitness` (fitness.dfy) defines the similarity that `set_fitness` computes over `zip`. It is the number of agreeing positions over the shorter length. It is proved equal to the size of the set of agreeing positions, and bounded by both lengths.
- `Transposition` (transposition.dfy) states the sort phase on the sequence of fitness values:
  - `PassFrom` is one pass. It swaps a pair only when the first value is strictly smaller.
  - `SortFrom` is the `while made_swap` loop. Its termination measure is the number of inversions, and every pass that changes the order removes at least one.
  - `SortByFitness` is the phase.
  - `CarryPass`, `CarrySort` and `CarryByFitness` apply the same swaps to a list of items that sit beside the fitness values, such as the candidates themselves. Each item moves exactly where its value moves. `SortIsStable` proves that the phase is stable: two items of equal fitness keep their relative order, because a pair is swapped only when the first value is strictly smaller.
  - The exit condition only says that the pairs of the last pass's parity are ordered. The first pass starts at 0, so a quiet first pass ends the loop whatever the odd pairs hold. Two lemmas exhibit inputs that end unsorted: fitness `[3, 1, 2]` and `[2, 0, 1, 1]`.
  - The phase's name and its label ("Ordenando por fitness") suggest a full sort by fitness. The code does not guarantee a fully sorted list, and the model follows the code.
- `Breeding` (breeding.dfy) holds the random parts, with the randomness passed in as oracle functions:
  - the letter draws of seeding;
  - the per-character coins of `breed`;
  - the parent indices of `breed_new`.
- `Evolution` (evolution.dfy) holds the objects:
  - `Candidate` is a class with a constant text and mutable `fitness` and `inFocus` fields.
  - `Population` is a class whose `members` sequence the phases change.

  Each phase is a method that runs its generator to completion and returns the number of labels it would have yielded. Its contract gives the new list as a function of the old one: the appended candidates, the kept prefix, or, for the sort, `CarryByFitness` of the old list and its fitness values, which fixes where each candidate ends. The class invariant `Valid` says that no candidate object occurs twice in the list.

The same program exists twice in the repository: `python_estilo/muaddib.py` and a copy with Spanish comments, `python_estilo/overcommented_muaddib.py`. Their logic is identical. The table below cites `muaddib.py`, and the table after it maps those lines to the commented copy.

## Model

| member | source | states |
|---|---|---|
| Fitness.Similarity | python_estilo/muaddib.py:38-41 | the count of agreeing positions over `zip(text, target)` is between 0 and the length of each string |
| Fitness.SimilarityCountsMatches | python_estilo/muaddib.py:38-41 | the fitness equals the number of positions k < min(len text, len target) with text[k] == target[k] |
| Fitness.SimilarityFullIff | python_estilo/muaddib.py:38-41 | the fitness reaches min(len text, len target) exactly when every compared position agrees |
| Fitness.SimilarityWithItself | python_estilo/muaddib.py:38-41 | a text compared with itself scores its full length |
| Fitness.SimilaritySymmetric | python_estilo/muaddib.py:38-41 | `zip` pairs both strings alike, so swapping text and target gives the same score |
| Evolution.Candidate.constructor | python_estilo/muaddib.py:20-24 | a new candidate has the given text and focus, and the default fitness -1 |
| Evolution.Candidate.SetFitness | python_estilo/muaddib.py:38-41 | the fitness becomes the similarity with the target, between 0 and the shorter length; the focus flag is untouched |
| Evolution.Population.constructor | python_estilo/muaddib.py:168 | the population starts as an empty list |
| Evolution.Population.ResetFocus | python_estilo/muaddib.py:43-45 | every focus flag is cleared; no fitness changes, so the fitness list is the same |
| Breeding.RandomText | python_estilo/muaddib.py:56 | a seeded text has `target_str_len` characters |
| Breeding.RandomTextUsesLetters | python_estilo/muaddib.py:56 | each seeded character is one of `letters` |
| Breeding.RandomTextReachesEveryText | python_estilo/muaddib.py:56 | every text of the right length over `letters` is produced by some sequence of draws |
| Evolution.Population.SeedOne | python_estilo/muaddib.py:53-59 | one new candidate with a random text and fitness -1 is appended and holds the only focus; the old list is an unchanged prefix |
| Evolution.Population.SeedMany | python_estilo/muaddib.py:52-59 | `count` turns of the seeding loop append `count` fresh unscored candidates with the n-th text from the n-th draws; earlier candidates keep their place and fitness |
| Evolution.Population.Seed | python_estilo/muaddib.py:48-59 | exactly max(0, population_size - len) candidates of fitness -1 are appended, one label each; existing candidates keep their place and fitness; the last one appended holds the focus; when nothing is appended every focus flag is unchanged |
| Evolution.Scored | python_estilo/muaddib.py:65-69 | the fitness after the scoring loop is never negative; a fitness already set is kept; a new one is at most the shorter length |
| Evolution.Population.ScoreStep | python_estilo/muaddib.py:65-71 | a scored candidate is skipped; an unscored one gets its similarity and the only focus; no other fitness changes |
| Evolution.Population.ScoreUnscored | python_estilo/muaddib.py:65-71 | afterwards each fitness is what `Scored` makes of it (kept if already scored, else the similarity); the label count is the number of unscored candidates |
| Evolution.CompareAt | python_estilo/muaddib.py:79-89 | past the last pair nothing happens; otherwise the two candidates at i and i + 1 are exchanged exactly when the first fitness is strictly smaller, so equal pairs stay; the fitness list and the candidate list go on as `PassFrom` and `CarryPass` go on at i + 2 |
| Evolution.SortPass | python_estilo/muaddib.py:79-89 | one pass puts every candidate where `CarryPass` sends it, so the fitness list is the one `PassFrom` describes; `made_swap` is false exactly when every pair it compares is already ordered, and then the list is unchanged |
| Evolution.SortTurn | python_estilo/muaddib.py:76-91 | one turn flips `evens` and runs a pass from `int(evens)`, giving the fitness list `PassFrom` and the candidate list `CarryPass` of that parity; a pass with a swap removes an inversion and hands over to the other parity, a quiet pass ends the loop with the list unchanged |
| Evolution.SortLoop | python_estilo/muaddib.py:74-91 | the `while made_swap` loop leaves the candidates in the order `CarryByFitness` gives, with the fitness list and pass count of `SortByFitness` |
| Transposition.SwapAt | python_estilo/muaddib.py:88-89 | exchanging two neighbours keeps the length and the multiset of values |
| Transposition.SwapRemovesOneInversion | python_estilo/muaddib.py:83-89 | swapping a pair whose first value is strictly smaller removes exactly one inversion |
| Transposition.PassFrom | python_estilo/muaddib.py:79-89 | a pass keeps the length and the multiset of fitness values |
| Transposition.PassKeepsPrefix | python_estilo/muaddib.py:79-89 | a pass from i never touches the positions before i |
| Transposition.PassOrdersItsPairs | python_estilo/muaddib.py:79-89 | after a pass, every pair it compared is non-increasing |
| Transposition.PassQuietWhenOrdered | python_estilo/muaddib.py:79-89 | a pass over pairs that are all ordered changes nothing |
| Transposition.PassQuietIff | python_estilo/muaddib.py:78-89 | a pass leaves the list unchanged if and only if every pair it compares is already ordered |
| Transposition.PassLowersInversions | python_estilo/muaddib.py:79-89 | a pass never adds inversions, and a pass that changes the list removes at least one |
| Transposition.SortFromStep | python_estilo/muaddib.py:76-91 | a turn over ordered pairs ends the loop after one pass; any other turn lowers the inversion count and continues with the other parity |
| Transposition.SortFrom | python_estilo/muaddib.py:76-91 | the loop from a given parity always runs at least one pass, the quiet one that ends it |
| Transposition.SortFromPermutes | python_estilo/muaddib.py:74-91 | the sort loop rearranges the fitness values and nothing more |
| Transposition.SortFromPassBound | python_estilo/muaddib.py:74-91 | the loop runs at most one pass more than the list has inversions |
| Transposition.SortFromExit | python_estilo/muaddib.py:74-91 | on exit the pairs of the last pass's starting parity are non-increasing |
| Transposition.SortByFitness | python_estilo/muaddib.py:73-91 | the sort phase, whose first pass starts at 0, gives a permutation after 1 to inversions + 1 passes, with the pairs of the last pass's parity ordered |
| Transposition.SortedIffBothParitiesOrdered | python_estilo/muaddib.py:74-91 | the list is non-increasing if and only if the pairs of both parities are ordered |
| Transposition.CarryPass | python_estilo/muaddib.py:79-89 | a pass applied to the items beside the values keeps their length and multiset |
| Transposition.CarryPassOfValues | python_estilo/muaddib.py:79-89 | carrying the fitness values themselves gives `PassFrom`: each item moves with its value |
| Transposition.CarrySort | python_estilo/muaddib.py:74-91 | the loop applied to the items keeps their length and multiset |
| Transposition.CarrySortStep | python_estilo/muaddib.py:76-91 | for the items, a turn over ordered pairs ends the loop with the items unchanged; any other turn carries them through one pass and continues with the other parity |
| Transposition.CarrySortOfValues | python_estilo/muaddib.py:74-91 | carrying the fitness values themselves gives the sorted values of `SortFrom` |
| Transposition.CarryByFitness | python_estilo/muaddib.py:73-91 | the phase applied to the candidates keeps their length and multiset |
| Transposition.SwapKeepsStable | python_estilo/muaddib.py:83-89 | swapping a strictly ordered pair never reverses two equal values |
| Transposition.CarryPassStable | python_estilo/muaddib.py:79-89 | a pass keeps two items of equal fitness in their relative order |
| Transposition.CarrySortStable | python_estilo/muaddib.py:74-91 | the whole loop keeps two items of equal fitness in their relative order |
| Transposition.CarryPassSelect | python_estilo/muaddib.py:79-89 | carrying items through a pass is carrying their starting positions and then looking the items up |
| Transposition.CarrySortSelect | python_estilo/muaddib.py:74-91 | the same holds for the whole loop |
| Transposition.SortIsStable | python_estilo/muaddib.py:73-91 | the phase puts each item at a permutation of the starting positions, and two items of equal fitness keep their relative order |
| Transposition.EqualFitnessKeepsOrder | python_estilo/muaddib.py:73-91 | fitness [1, 2, 2] over a, b, c gives b, c, a: the two equal candidates move up together, and c never overtakes b |
| Transposition.ExitLeavesOddPairUnsorted | python_estilo/muaddib.py:74-91 | fitness [3, 1, 2] exits after one quiet pass, unchanged and not sorted |
| Transposition.ExitLeavesFourCandidatesUnsorted | python_estilo/muaddib.py:74-91 | fitness [2, 0, 1, 1] exits after one quiet pass, unchanged and not sorted |
| Evolution.Population.SortPhase | python_estilo/muaddib.py:73-91 | after `reset_focus` and the loop, the list is `CarryByFitness` of the old list, so ties keep their order; no fitness changes; the fitness list is `SortByFitness` of the old one; one label per pass; no focus is left |
| Evolution.Population.SortMembers | python_estilo/muaddib.py:74-91 | the `while made_swap` loop stores the list `CarryByFitness` gives and changes no candidate |
| Evolution.Population.OrderByFitness | python_estilo/muaddib.py:61-91 | every candidate ends scored (fitness >= 0) and already-scored ones keep their fitness; the list is `CarryByFitness` of the old list under the scored fitness values, whose fitness list is `SortByFitness` of the scored list, with the last pass's pairs ordered; labels are unscored count plus passes; focus is cleared |
| Evolution.Population.DropLast | python_estilo/muaddib.py:96-97 | one pop: the list loses its last element, and the new last one takes the focus |
| Evolution.Population.RemoveUnfit | python_estilo/muaddib.py:94-99 | a longer list is cut to its first `num_fit_to_keep` candidates, one label per pop; a shorter one is unchanged; fitness is untouched and all focus is cleared |
| Evolution.Breed | python_estilo/muaddib.py:101-110 | the child is a fresh, unscored, unfocused candidate whose text is the crossover of its parents' texts under the given coins |
| Breeding.ChildChar | python_estilo/muaddib.py:104-109 | a mutated character is one of `letters`; otherwise it is the character of parent a or parent b at that position |
| Breeding.Crossover | python_estilo/muaddib.py:103-109 | the child text has length min(len a, len b), and each character is a's, b's or a letter |
| Breeding.CrossoverWithoutMutationInherits | python_estilo/muaddib.py:103-109 | when no mutation fires, each character comes from one of the two parents at that position |
| Breeding.CrossoverOfTwins | python_estilo/muaddib.py:103-109 | when no mutation fires, two parents with the same text have a child with that text |
| Breeding.CrossoverFullMutation | python_estilo/muaddib.py:104-105 | when every position mutates, the child is a random text of the shorter length |
| Breeding.ParentIndices | python_estilo/muaddib.py:115-116 | with at least two survivors, the drawn parent indices are in range and different |
| Breeding.EveryParentPairReachable | python_estilo/muaddib.py:115-116 | every ordered pair of different survivors can be drawn as the parents |
| Evolution.ChildText | python_estilo/muaddib.py:115-119 | the text of the n-th child; its property, a crossover of two different survivors, is stated by `ChildOfTwoSurvivors` |
| Evolution.ChildOfTwoSurvivors | python_estilo/muaddib.py:115-119 | the child's text is the crossover of two different survivors |
| Evolution.ChildKeepsTextLength | python_estilo/muaddib.py:112-125 | children of survivors whose texts have one length have that length too |
| Evolution.Population.FocusPair | python_estilo/muaddib.py:118-122 | after `reset_focus`, exactly the two parents hold the focus; no fitness changes |
| Evolution.Population.BreedOne | python_estilo/muaddib.py:115-125 | one child of the survivors drawn for step n is appended, fresh and unscored; the list before it is an unchanged prefix; it and its two parents hold the focus |
| Evolution.Population.BreedNew | python_estilo/muaddib.py:112-126 | exactly max(0, population_size - num_fit) children are appended, one label each; the survivors stay an unchanged prefix with their fitness; the n-th child has fitness -1 and the text of the n-th crossover |
| Evolution.SliceLength | python_estilo/muaddib.py:204 | the slice `population[:goal]` is never longer than the list |
| Evolution.AllTextsAre | python_estilo/muaddib.py:204 | the short-circuit `all(...)` holds if and only if every candidate's text is the target |
| Evolution.Converged | python_estilo/muaddib.py:203-204 | when the loop stops, the list holds at least `num_fit_to_keep // 2` candidates and every text in the slice is the target |
| Evolution.ConvergedIff | python_estilo/muaddib.py:203-204 | for num_fit_to_keep >= 0 the loop stops if and only if len >= num_fit_to_keep // 2 and the first num_fit_to_keep // 2 texts equal the target |
| Evolution.ConvergedWithNegativeKeep | python_estilo/muaddib.py:203-204 | for a negative num_fit_to_keep, the slice drops candidates from the end and the length test always passes |
| Evolution.ConvergedElitesScoreFull | python_estilo/muaddib.py:203-204 | once the loop stops, each of the first num_fit_to_keep // 2 candidates scores the full length of the target |

## Source correspondence

The two source files hold the same code; a range of `muaddib.py` and its counterpart cover the same statements.

| construct | python_estilo/muaddib.py | python_estilo/overcommented_muaddib.py |
|---|---|---|
| `Candidate` dataclass | 20-24 | 21-25 |
| `set_fitness` | 38-41 | 41-44 |
| `reset_focus` | 43-45 | 47-49 |
| `seed_population` | 48-59 | 52-63 |
| scoring loop of `order_by_fitness` | 65-71 | 70-76 |
| sort phase of `order_by_fitness` | 73-91 | 78-96 |
| one sort pass | 79-89 | 84-94 |
| `remove_unfit` | 94-99 | 99-104 |
| `breed` | 101-110 | 107-116 |
| `breed_new` | 112-126 | 119-133 |
| parent indices | 115-116 | 122-123 |
| empty population in `main` | 168 | 175 |
| convergence test in `main` | 203-204 | 210-211 |

## Left out

- `display` and `Candidate.display_str` are terminal rendering with ANSI colours, centring and padding. So is the `color` class. Their one piece of logic, the per-character match, is the similarity.
- The driver loop of `main` is not modelled: the `chain` of the four generators, the `time.sleep` and the screen-clearing `print`. Only its stopping test is modelled (`Converged`). The phases are separate methods, not composed into one round.
- The `__main__` block is not modelled: `input()`, the default phrase, `lower()` and the wall-clock timing.
- Generators are not modelled as such. Each phase runs to completion and returns how many labels it would have yielded. The label strings, and the display that runs after each yield, are not modelled.
- Randomness is not modelled as probability:
  - `random.choice(letters)` is an oracle answer in `LetterIndex`.
  - `random.random() < mutation_prob` and `random.random() < 0.5` are boolean oracles. The floats and probabilities are not modelled, and nothing is said about distributions.
  - `random.randint(a, b)` is a raw natural-number draw, reduced into its range by `%`. Every outcome is covered, but uniformity is not.
- SortPhase: the passes run on the list value, and the resulting list is stored in `members` at the end. The intermediate orders the source shows at each `yield` are not stored. Each pass makes the same swaps as the source, so each candidate ends in the same place, and the pass count is the same.
- Valid: every phase requires and keeps the invariant that no candidate object occurs twice in the list. The source never makes such a list, because every candidate is a new object. A list holding one object twice, which the source would score once, is not covered.
- RemoveUnfit: requires at least one kept candidate whenever it pops. `population[-1]` raises `IndexError` after a pop that empties the list, and `pop()` itself raises it when the list is already empty and `num_fit_to_keep` is negative. The model does not represent that exception.
- BreedNew: requires at least two survivors whenever it appends. `randint(0, -1)` and `randint(1, 0)` raise `ValueError`, and the model does not represent that exception.
- BreedNew: does not state which candidates hold the focus at the end. BreedOne states it for each step.
- ScoreUnscored: does not state which candidate holds the focus at the end. ScoreStep states it for each step, and the sort phase clears all focus right after.
