# Compatible index sequences — a verified model of the core

The application helps a sequencing lab choose index (barcode) sequences
that can be pooled in one run. Two indexes are compatible when their
Hamming distance is at least a minimum distance. The distance is taken over
a common window of leading characters and is case-insensitive. The core
covered here:

- **Distance engine** (`utils.py`): `hamming_distance`, `is_self_compatible`,
  `find_incompatible_index_pairs`, the minimum-length helpers, the text
  alignments shown for an incompatible pair, and `reverse_complement`.
- **Pool handling** (`utils.py`): `remove_incompatible_indexes_from_queryset`
  drops from a pool every sequence too close to a committed one.
  `join_two_compatible_sets` concatenates two sets. `optimize_set_order`
  ranks the pools before a search.
- **Subset search** (`utils.py`): `find_compatible_subset` is a backtracking
  search over `itertools.combinations` of each pool. It has a wall-clock
  timeout and a `previous_list` shared by all its calls.
- **Stored sets** (`models.py`): the sequence validator,
  `IndexSet.min_length` and `IndexSet.is_self_compatible`.
- **Indexing records** (`classes.py`): `IndexingData` (index 1, index 2,
  their ids, a sample id) and the mutable collection `IndexingDataSet`.
  The collection offers `add`, the uniqueness checks, single/dual/mixed
  classification, the getters and the minimum index length.
- **Form cleaning** (`forms.py`): `clean_custom_index_text` and
  `convert_index_list_to_indexing_data`.
- **Template filters**: `list2table` (rows of n) and `nbsp`.
- **Browser check** (`static/.../app.js`): `hamming` and
  `checkCompatibility`, which marks the page elements that clash.

The Dafny modules follow the Python code. `utils.py` is split over
`Itertools`, `Distance`, `Alignment`, `Pools` and `Search`; `models.py` is
`Models`, `classes.py` is `Indexing`, `forms.py` is `Forms`, the two
template filters are `TemplateTags`, and `app.js` is `ClientCheck`.
`Wrappers` (Option and Result) and `Strings` (split, join, count) are shared
helpers. Pure code is modelled as functions and lemmas. Loops and state
changes are modelled as methods proved against those functions:

- `IndexingDataSet` and the search state are classes with fields.
- The browser page is a class with its set of marked elements.
- Python exceptions are the `Err` branch of a `Result`.
- Python's `float('inf')` is the `Infinity` case of `Length`.

Behaviour of the code worth noting, which the model keeps:

- `hamming_distance` gives `None` for windows of different lengths or an
  empty window, and `None < min_distance` then raises TypeError. The model
  returns `Err(TypeError)`.
- The reduction of a pool against the committed sequences
  (`utils.py:32-33`) does not pass `min_distance`. It always uses the
  default distance 3 (`Search.ReductionDistance`).
- `generate_alignment` pads with '-' up to the longer string and turns every
  mark from `length` on into '-'. The alignment keeps its full length.
- `get_indexing_type` of an empty collection is `None`. `filter(None, ...)`
  counts an empty index 2 as absent.
- `_get_min_index_length` flattens the sequences into their characters
  (see Findings). It answers `float('inf')` for an empty collection or one
  whose sequences are all empty, and 1 when some sequence is non-empty and
  none is None. A None sequence raises TypeError, and a nested collection
  entry raises AttributeError.
- `join_two_compatible_sets` with its default `length=float('inf')` raises
  TypeError on two or more sequences, because a slice index must be an
  integer.

## Model

| member | source | states |
|---|---|---|
| Itertools.PairsFrom | compatible_index_sequences/utils.py:236 | every pair in the rows from i on has i <= first < second < n |
| Itertools.PairsFromComplete | compatible_index_sequences/utils.py:236 | every pair i <= p.0 < p.1 < n is among the rows from i |
| Itertools.PairsFromSorted | compatible_index_sequences/utils.py:236 | the rows come in strictly increasing lexicographic order |
| Itertools.IndexPairs | compatible_index_sequences/utils.py:79 | `combinations(range(n), 2)`, as used at utils.py:79 and 236: every pair listed has first < second < n (completeness and order are `Itertools.IndexPairsMembership` and `Itertools.IndexPairsSorted`) |
| Itertools.IndexPairsMembership | compatible_index_sequences/utils.py:236 | `combinations(range(n), 2)` yields exactly the pairs i < j < n |
| Itertools.IndexPairsSorted | compatible_index_sequences/utils.py:236 | the pairs come in strictly increasing lexicographic order, so none repeats |
| Itertools.BinomialPositive | compatible_index_sequences/utils.py:42 | there is at least one r-combination exactly when r <= n |
| Itertools.Combinations | compatible_index_sequences/utils.py:42 | `combinations(xs, r)` has C(n, r) members, each of size r and a subsequence of xs; that they are exactly the selections by every increasing choice of r positions, each once, in lexicographic order, is `Itertools.CombinationsByPositions` |
| Itertools.PositionCombinations | compatible_index_sequences/utils.py:42 | `combinations(range(lo, n), r)`: each member is a strictly increasing list of r positions within lo .. n-1 |
| Itertools.Select | compatible_index_sequences/utils.py:42 | the elements at the given positions, in order |
| Itertools.PrependMember | compatible_index_sequences/utils.py:42 | a list drawn from the tails reappears, headed by the new element, among the extended lists |
| Itertools.PositionCombinationsComplete | compatible_index_sequences/utils.py:42 | every strictly increasing list of r positions within lo .. n-1 is yielded |
| Itertools.PositionCombinationsSorted | compatible_index_sequences/utils.py:42 | the position lists come in strictly increasing lexicographic order, so none repeats |
| Itertools.CombinationsSelectFrom | compatible_index_sequences/utils.py:42 | the combinations of a suffix are the selections by the position lists of that suffix, in order |
| Itertools.CombinationsByPositions | compatible_index_sequences/utils.py:42 | `combinations(xs, r)` selects by `combinations(range(len(xs)), r)`: every increasing choice of r positions is yielded, once, in lexicographic order |
| Itertools.SubseqPair | compatible_index_sequences/utils.py:42 | two positions of a combination come from two ordered positions of the pool |
| Itertools.SubseqElement | compatible_index_sequences/utils.py:42 | every member of a combination is a member of the pool |
| Distance.MinLength | compatible_index_sequences/utils.py:232 | Python `min` of two lengths: it is one of them, bounded by both, infinite only when both are |
| Distance.Upper | compatible_index_sequences/utils.py:238 | `str.upper()` on a window, one character at a time (ASCII letters only) |
| Distance.Prefix | compatible_index_sequences/utils.py:238 | the slice `s[0:n]` is a prefix of s of length min(len(s), n) |
| Distance.EffectiveWindow | compatible_index_sequences/utils.py:231-234 | the window `is_self_compatible` compares: `length` when given, otherwise the shortest sequence, or infinity for no sequences |
| Distance.CountMismatches | compatible_index_sequences/utils.py:129 | the count is at most the length, and 0 exactly for equal strings |
| Distance.CountMismatchesIsSize | compatible_index_sequences/utils.py:129 | the count is the number of positions at which the strings differ |
| Distance.HammingDistance | compatible_index_sequences/utils.py:123-129 | None exactly when a string is empty or the lengths differ; otherwise the number of differing positions |
| Distance.HammingZeroIffEqual | compatible_index_sequences/utils.py:123-129 | distance 0 exactly for equal strings, never above the length |
| Distance.HammingSymmetric | compatible_index_sequences/utils.py:123-129 | the distance does not depend on the argument order |
| Distance.TooClose | compatible_index_sequences/utils.py:237-239 | the pair test over upper-cased windows; TypeError exactly for an infinite window, an empty window or windows of different lengths |
| Distance.TooCloseDefined | compatible_index_sequences/utils.py:237-239 | a positive window that both sequences reach never raises |
| Distance.TooCloseSymmetric | compatible_index_sequences/utils.py:237-239 | the pair test is symmetric |
| Distance.ScanPairs | compatible_index_sequences/utils.py:236-241 | True exactly when every scanned pair is far enough apart; it raises only TypeError, and never when every pair is comparable |
| Distance.ScanPairsFirstDecides | compatible_index_sequences/utils.py:236-241 | the first pair that is not far enough decides the scan: too close gives False, undefined raises |
| Distance.AllIndexPairsFar | compatible_index_sequences/utils.py:236-241 | the scan over `combinations(range(n), 2)` passes exactly when every pair i < j is far enough apart |
| Distance.IsSelfCompatible | compatible_index_sequences/utils.py:227-241 | True for at most one sequence; True exactly when every pair is far enough apart over the window (the shortest length when none is given); only TypeError is raised |
| Distance.ScanIndexPairsFirstFailure | compatible_index_sequences/utils.py:236-241 | the first pair in `combinations` order that fails decides the scan |
| Distance.IsSelfCompatibleFirstFailure | compatible_index_sequences/utils.py:236-241 | False at the first too-close pair, TypeError at the first undefined comparison |
| Distance.IsSelfCompatibleSubseq | compatible_index_sequences/utils.py:227-241 | with an explicit window, a subsequence of a compatible list is compatible |
| Distance.IsSelfCompatibleDefined | compatible_index_sequences/utils.py:227-241 | when every pair is comparable, the check answers instead of raising |
| Distance.IsSelfCompatibleInfiniteWindow | compatible_index_sequences/utils.py:227-241 | an explicit `length=float('inf')` with two or more sequences raises TypeError |
| Distance.MinimumLength | compatible_index_sequences/utils.py:209-214 | infinity exactly for an empty list; otherwise a lower bound that some sequence attains |
| Distance.MinimumIndexLengthFromLists | compatible_index_sequences/utils.py:209-214 | infinity exactly when all lists are empty; otherwise the least length over all lists, attained by some sequence |
| Distance.IncompatiblePositions | compatible_index_sequences/utils.py:78-86 | the scanned pairs found too close, in range; it succeeds exactly when every comparison is defined, and otherwise raises TypeError |
| Distance.IncompatiblePositionsStep | compatible_index_sequences/utils.py:78-86 | one step of the scan: the verdict on the next pair decides what is appended |
| Distance.IncompatiblePositionsFailsAt | compatible_index_sequences/utils.py:78-86 | one undefined comparison anywhere makes the whole call raise TypeError |
| Distance.IncompatiblePositionsMembership | compatible_index_sequences/utils.py:78-86 | a pair is reported exactly when it is scanned and found too close |
| Distance.IncompatiblePositionsSorted | compatible_index_sequences/utils.py:78-86 | scanning in increasing order reports in increasing order |
| Distance.PairValuesAppend | compatible_index_sequences/utils.py:84-85 | appending a position pair appends the two sequences it names |
| Distance.ScanIncompatible | compatible_index_sequences/utils.py:78-86 | the loop computes the positions of the scan and, alongside them, the sequences they name |
| Distance.FindIncompatibleIndexPairs | compatible_index_sequences/utils.py:71-94 | the window is `index_length` (a natural number or infinity) or, when None, the shortest sequence; TypeError when a window cannot be compared; pairs, positions or both as asked; ValueError when neither is asked |
| Distance.DefaultWindow | compatible_index_sequences/utils.py:74-75 | the window `find_incompatible_index_pairs` compares: `index_length` when given, otherwise the shortest sequence |
| Distance.FindIncompatibleInfiniteWindow | compatible_index_sequences/utils.py:79-82 | an explicit `index_length=float('inf')` with two or more sequences raises TypeError, because the slice bound is not an integer |
| Distance.Report | compatible_index_sequences/utils.py:87-94 | an error exactly when neither output is asked for |
| Distance.IncompatiblePairsExact | compatible_index_sequences/utils.py:71-94 | a position pair is listed exactly when i < j and it is too close; the list is in `combinations` order |
| Alignment.Repeat | compatible_index_sequences/utils.py:101-102 | `c * n` is n copies of c |
| Alignment.MatchMarks | compatible_index_sequences/utils.py:98-99 | one mark per position that both strings reach |
| Alignment.GenerateAlignment | compatible_index_sequences/utils.py:97-108 | the alignment is as long as the longer string with `mark_unaligned`, the shorter one without it; marks per position are stated by `Alignment.GenerateAlignmentShape` |
| Alignment.GenerateAlignmentShape | compatible_index_sequences/utils.py:97-108 | length is the longer string's (the shorter one's without `mark_unaligned`); each mark is '\|' for a case-insensitive match, ' ' for a mismatch, '-' outside the window or the shorter string |
| Alignment.AlignmentBlanksAreMismatches | compatible_index_sequences/utils.py:97-108 | for equal-length sequences, the blanks sit exactly where `hamming_distance` counts a difference, and their number is the distance |
| Alignment.GenerateIncompatibleAlignments | compatible_index_sequences/utils.py:111-120 | one alignment per pair, in order, with the window defaulting to infinity |
| Alignment.ReverseComplement | compatible_index_sequences/utils.py:278-279 | the result keeps the length |
| Alignment.ComplementChar | compatible_index_sequences/utils.py:278-279 | the translation is an involution that maps bases to different bases |
| Alignment.ReverseComplementInvolution | compatible_index_sequences/utils.py:278-279 | the reverse complement of the reverse complement is the sequence |
| Alignment.ReverseComplementBases | compatible_index_sequences/utils.py:278-279 | bases stay bases, and each differs from the base it mirrors |
| Alignment.Complement | compatible_index_sequences/utils.py:279 | the translation table maps a base to a base and leaves every other character unchanged |
| Models.SequencePatternByPosition | compatible_index_sequences/models.py:26-35 | the validator accepts exactly a non-empty run of bases, in either case, optionally followed by one final newline |
| Models.MatchesSequencePattern | compatible_index_sequences/models.py:30-33 | `^[ACGT]+$` with `re.I`: one or more bases, optionally followed by one final newline that `$` lets through; stated position by position by `Models.SequencePatternByPosition` |
| Models.ValidSequence | compatible_index_sequences/models.py:26-35 | a stored sequence fits `max_length` and matches the pattern |
| Models.WellFormedNeverRaises | compatible_index_sequences/models.py:81-89 | for a stored, validated, non-empty set and a length other than 0, `is_self_compatible` answers rather than raises |
| Models.Sequences | compatible_index_sequences/models.py:78 | the sequences of the set's indexes, in order |
| Models.MinLength | compatible_index_sequences/models.py:77-79 | ValueError exactly for an empty set; otherwise the least sequence length, attained by some index |
| Models.IsSelfCompatible | compatible_index_sequences/models.py:81-89 | an empty set raises ValueError |
| Models.MinLength' | compatible_index_sequences/models.py:83 | `min(min_length, length)` is one of the two and bounded by both |
| Models.PairFarMeaning | compatible_index_sequences/models.py:84-88 | a pair passes exactly when `hamming_distance` of the upper-cased windows is defined and at least `min_distance` |
| Models.IsSelfCompatibleMeaning | compatible_index_sequences/models.py:81-89 | True exactly when the set has one index or every pair of windows is at least `min_distance` apart |
| Models.IsSelfCompatibleRaisesOnlyOnEmptyWindow | compatible_index_sequences/models.py:81-89 | every sequence reaches the common window, so the check raises only when the window is 0 |
| Pools.JoinTwoCompatibleSets | compatible_index_sequences/utils.py:193-206 | only TypeError is raised; a join returns a followed by b |
| Pools.SuffixCompatible | compatible_index_sequences/utils.py:195-197 | if a + b is compatible, so is b, so the pre-check on b never rejects a join that would succeed |
| Pools.JoinSucceedsIff | compatible_index_sequences/utils.py:193-206 | the join succeeds exactly when a + b is self-compatible, whatever `b_is_self_compatible` says |
| Pools.JoinDefaultLengthRaises | compatible_index_sequences/utils.py:193-206 | the default window `float('inf')` raises TypeError for two or more sequences |
| Pools.RowRejects | compatible_index_sequences/utils.py:268-273 | one row of the product: it succeeds exactly when each comparison is defined; only TypeError is raised |
| Pools.RowRejectsMembership | compatible_index_sequences/utils.py:268-273 | a row appends only its own sequence, and does so exactly when it is too close to a committed one |
| Pools.RejectedSnoc | compatible_index_sequences/utils.py:268-273 | too close to cs + [c] exactly when too close to cs or to c |
| Pools.ProductRejects | compatible_index_sequences/utils.py:268-273 | the whole product succeeds exactly when every comparison is defined |
| Pools.ProductRejectsMembership | compatible_index_sequences/utils.py:268-273 | the rejected list holds exactly the pool sequences too close to some committed one |
| Pools.Without | compatible_index_sequences/utils.py:275 | keeps exactly the members not in the rejected list |
| Pools.KeepFar | compatible_index_sequences/utils.py:261-275 | the reference filter: exactly the members far from every committed sequence |
| Pools.KeepFarSubseq | compatible_index_sequences/utils.py:275 | the filter keeps the pool's order |
| Pools.WithoutIsKeepFar | compatible_index_sequences/utils.py:275 | removing the rejected members is the reference filter |
| Pools.RemoveIncompatible | compatible_index_sequences/utils.py:261-275 | with nothing committed, the pool comes back unchanged; only TypeError is raised |
| Pools.RemoveIncompatibleExact | compatible_index_sequences/utils.py:261-275 | it succeeds exactly when every comparison is defined; the result is the order-preserving subsequence of pool members far from every committed sequence |
| Pools.RemoveIncompatibleDefined | compatible_index_sequences/utils.py:261-275 | non-empty sequences and a non-zero window never raise |
| Pools.RemoveIncompatibleIndexes | compatible_index_sequences/utils.py:261-275 | the nested loop computes exactly the reduction |
| Pools.ScanRow | compatible_index_sequences/utils.py:268-273 | the inner loop computes one row of rejections |
| Pools.RowRejectsPrefix | compatible_index_sequences/utils.py:268-273 | an error in a prefix of the row is an error of the row |
| Pools.ProductRejectsRowFails | compatible_index_sequences/utils.py:268-273 | an error in one row is an error of the product |
| Pools.RowRejectsStep | compatible_index_sequences/utils.py:268-273 | one inner step appends the sequence exactly when it is too close |
| Pools.ProductRejectsStep | compatible_index_sequences/utils.py:268-273 | one outer step appends the row's rejections |
| Pools.NotAfterTransitive | compatible_index_sequences/utils.py:257-258 | the sort key (descending sequence length, then ascending set size, then position) is transitive |
| Pools.InsertMultiset | compatible_index_sequences/utils.py:257-258 | insertion adds exactly the one entry |
| Pools.InsertSorted | compatible_index_sequences/utils.py:257-258 | insertion keeps the entries sorted |
| Pools.SortEntries | compatible_index_sequences/utils.py:257-258 | `sorted` on the zipped rows; a permutation (`Pools.SortEntriesMultiset`) in key order (`Pools.SortEntriesSorted`) |
| Pools.SortEntriesMultiset | compatible_index_sequences/utils.py:257-258 | `sorted` is a permutation |
| Pools.SortEntriesSorted | compatible_index_sequences/utils.py:257-258 | `sorted` orders by the key |
| Pools.Positions | compatible_index_sequences/utils.py:257 | one position per entry |
| Pools.Range | compatible_index_sequences/utils.py:245 | `range(n)` is 0, ..., n-1 |
| Pools.PoolEntries | compatible_index_sequences/utils.py:249-255 | one entry per pool |
| Pools.PositionsConcat | compatible_index_sequences/utils.py:257 | positions distribute over concatenation |
| Pools.PositionsMultiset | compatible_index_sequences/utils.py:257 | permuted entries give permuted positions |
| Pools.OptimizeSetOrder | compatible_index_sequences/utils.py:244-258 | corrected: the loop builds the aligned entries, and the result is their sorted positions, a ranking of the pools |
| Pools.PoolEntriesAppend | compatible_index_sequences/utils.py:249-255 | one more pool adds its own entry |
| Pools.OptimizeSetOrderRanks | compatible_index_sequences/utils.py:244-258 | corrected: a permutation of 0..n-1 with pools ordered by descending shortest sequence, then ascending size, then position |
| Pools.SetLengthsAsWritten | compatible_index_sequences/utils.py:249-255 | the set lengths as the loop appends them: at most two per pool, and an infinite entry only for a pool that is missing or empty (the `except` branch) |
| Pools.SeqLengthsAsWritten | compatible_index_sequences/utils.py:249-255 | one sequence length per pool |
| Pools.SetLengthsAsWrittenLength | compatible_index_sequences/utils.py:249-255 | as written, at least one set length per pool |
| Pools.OptimizeSetOrderAsWritten | compatible_index_sequences/utils.py:244-258 | as written: the loop appends two set lengths for an empty pool, and the result is the sorted positions of the zipped, misaligned entries |
| Pools.AsWrittenAppend | compatible_index_sequences/utils.py:249-255 | one more pool appends its set lengths and its sequence length |
| Pools.OptimizeSetOrderAsWrittenPermutation | compatible_index_sequences/utils.py:244-258 | as written, the result is still a permutation of 0..n-1 |
| Pools.SetLengthsWithoutEmptyPools | compatible_index_sequences/utils.py:249-255 | without an empty pool, there is exactly one set length per pool, the intended one |
| Pools.AsWrittenAgreesWithoutEmptyPools | compatible_index_sequences/utils.py:244-258 | without an empty pool, the code as written builds the intended entries |
| Pools.OptimizeSetOrderMisaligned | compatible_index_sequences/utils.py:244-258 | an empty pool followed by pools of 5 and 10 sequences of length 8 gives [2, 1, 0] as written and [1, 2, 0] intended |
| Pools.LeadingEmptyPoolShifts | compatible_index_sequences/utils.py:249-255 | a leading empty pool shifts every later set length one pool along |
| Pools.LeadingEmptySetLengths | compatible_index_sequences/utils.py:249-255 | a leading empty pool gives the set lengths [0, inf, \|p1\|, \|p2\|] |
| Pools.MisalignedEntries | compatible_index_sequences/utils.py:249-258 | the zipped entries of the counterexample, as written and intended |
| Pools.MisalignedSorts | compatible_index_sequences/utils.py:257-258 | the sorted positions of the counterexample's entries |
| Pools.MinimumLengthAllEqual | compatible_index_sequences/utils.py:209-214 | a list whose sequences all have length n has minimum n |
| Search.Find | compatible_index_sequences/utils.py:13-68 | the shared list only grows and the clock is only read forward; None exactly when no pool is left or the pool has no set; a timeout implies an expired reading; a non-empty answer implies no timeout. What a non-empty answer is, for any number of pools, is stated by `Search.FindFirstSuccess` and `Search.DescendAnswer`; that an untimed `[]` means every combination was passed over is stated by `Search.FindExhausted` |
| Search.FindReduced | compatible_index_sequences/utils.py:34-68 | after the reduction, the call answers a list, never None; IndexError for a missing size |
| Search.Verdicts | compatible_index_sequences/utils.py:39-45 | one verdict per combination |
| Search.Loop | compatible_index_sequences/utils.py:42-66 | the loop answers a list; a non-empty answer implies no timeout |
| Search.Descend | compatible_index_sequences/utils.py:55-63 | with one pool left, the combination itself; a non-empty deeper answer extends the combination |
| Search.LoopRejects | compatible_index_sequences/utils.py:44-49 | a rejected combination reads the clock once, then times out with [] or moves to the next combination |
| Search.FindEarlyOutcomes | compatible_index_sequences/utils.py:26-37 | a failed reduction raises, a missing size raises IndexError, and a pool smaller than its size answers []; none of these touches the clock |
| Search.LoopSound | compatible_index_sequences/utils.py:42-66 | a non-empty loop answer starts with an accepted combination |
| Search.LoopFirstFit | compatible_index_sequences/utils.py:42-66 | with one pool, a non-empty answer is the first non-empty accepted combination (the general case is `Search.LoopFirstSuccess`) |
| Search.FindReachesLoop | compatible_index_sequences/utils.py:26-42 | a non-empty answer passed the early checks and came from the loop |
| Search.ReducedMembers | compatible_index_sequences/utils.py:32-33 | what a selection from the reduced pool inherits: membership of the pool, and distance from every committed sequence |
| Search.AcceptedCombination | compatible_index_sequences/utils.py:39-53 | an accepted combination has the requested size, comes from the reduced pool and is self-compatible |
| Search.AcceptedHead | compatible_index_sequences/utils.py:39-53 | an answer that starts with an accepted combination starts with a self-compatible selection from the pool |
| Search.FindSound | compatible_index_sequences/utils.py:13-68 | the first `subset_size` sequences of a non-empty answer are a self-compatible selection from the head pool, each far from every committed sequence |
| Search.EarlierRejected | compatible_index_sequences/utils.py:42-49 | every combination before the chosen one failed the check |
| Search.FindFirstFit | compatible_index_sequences/utils.py:13-68 | with one pool, a non-empty answer is the first self-compatible combination in `combinations` order (the general case is `Search.FindFirstSuccess`) |
| Search.Step | compatible_index_sequences/utils.py:42-66 | one pass of the loop that does not end the call: a rejection reads a clock that has not expired and moves one reading on; an acceptance recursed and got `[]` back; with one pool the state is never timed out |
| Search.Passed | compatible_index_sequences/utils.py:40-66 | the state in which the loop reaches a later combination; with one pool it is never timed out |
| Search.PassedFront | compatible_index_sequences/utils.py:40-66 | reaching combination j from k is one pass from k and then reaching j from k + 1; a pass that ends the call means j is never reached |
| Search.PassedPrefix | compatible_index_sequences/utils.py:40-66 | reaching combination j means every earlier combination from k on was reached and passed without ending the call |
| Search.LoopFirstSuccess | compatible_index_sequences/utils.py:40-66 | for any number of pools, a non-empty loop answer is what `Descend` answers for an accepted combination j, from the state in which the loop reached j |
| Search.DescendAnswer | compatible_index_sequences/utils.py:54-63 | a non-empty answer for combination c is c with one pool left; otherwise the deeper search with c committed answered None (answer c) or a non-empty tail (answer c + tail), and its state is the final state |
| Search.ReducedVerdictsSound | compatible_index_sequences/utils.py:39-45 | each verdict over the combinations of a reduced pool is what `is_self_compatible` answers for that combination |
| Search.LoopEnds | compatible_index_sequences/utils.py:40-66 | with sound verdicts, a non-empty loop answer ends the call at some combination j: j is reached and self-compatible, `Descend` from there gives the answer, and every earlier combination was passed over |
| Search.FindFirstSuccess | compatible_index_sequences/utils.py:13-68 | for any number of pools, a non-empty answer is `combos[j] + tail` for the first combination of the reduced head pool at which the call ends: `combos[j]` is self-compatible, and each earlier combination either failed the check on a clock not yet expired or is self-compatible and its recursion answered `[]` |
| Search.LoopExhausted | compatible_index_sequences/utils.py:40-68 | an untimed `[]` from the loop at k means the loop passed every combination from k on and ended in the state that passing the last one left |
| Search.LoopExhaustedAll | compatible_index_sequences/utils.py:40-68 | with sound verdicts, an untimed `[]` from the loop means every combination was reached and passed over: it failed the check on a clock not yet expired, or it is self-compatible and its recursion answered `[]` |
| Search.FindExhausted | compatible_index_sequences/utils.py:13-68 | an untimed `[]` answer means the reduction succeeded and either the reduced head pool is smaller than the subset size (nothing tried, state untouched) or every combination of it, in `combinations` order, was passed over |
| Search.SubsetSearch.constructor | compatible_index_sequences/utils.py:14-17 | an empty shared list, no clock reading, not timed out |
| Search.SubsetSearch.FindCompatibleSubset | compatible_index_sequences/utils.py:13-68 | the answer and the new state are those of `Find` |
| Search.SubsetSearch.SearchReduced | compatible_index_sequences/utils.py:34-68 | the answer and the new state are those of `FindReduced` |
| Search.SubsetSearch.TryCombinations | compatible_index_sequences/utils.py:42-66 | the loop's answer and state are those of `Loop` |
| Search.SubsetSearch.TryCombination | compatible_index_sequences/utils.py:42-66 | one loop pass either ends the call as `Loop` does or continues with its state |
| Search.SubsetSearch.Reject | compatible_index_sequences/utils.py:44-49 | one clock reading, then a timeout or the next combination |
| Search.SubsetSearch.Accept | compatible_index_sequences/utils.py:50-66 | the recursion, then an answer or the next combination |
| Search.SubsetSearch.DescendInto | compatible_index_sequences/utils.py:55-63 | the answer and the new state are those of `Descend` |
| Strings.Count | compatible_index_sequences/forms.py:20 | `str.count` of one character: at most the length, 0 exactly when absent |
| Strings.Split | compatible_index_sequences/templatetags/nbsp.py:30 | `str.split(c)` never gives an empty list |
| Strings.SplitShape | compatible_index_sequences/classes.py:97 | `split(c)` gives one more piece than there are c, and no piece holds c |
| Strings.Join | compatible_index_sequences/templatetags/nbsp.py:30 | `sep.join(parts)`: empty for no parts, otherwise it starts with the first part; `Strings.JoinSplit` makes it the inverse of `split` |
| Strings.JoinSplit | compatible_index_sequences/templatetags/nbsp.py:30 | joining the pieces of `split(c)` with c gives the string back |
| Strings.SplitAtFirst | compatible_index_sequences/templatetags/nbsp.py:30 | the split of a + c + b is a followed by the split of b |
| Strings.SplitAtLast | compatible_index_sequences/templatetags/nbsp.py:30 | a trailing c ends the split with an empty piece |
| Strings.JoinAtLast | compatible_index_sequences/templatetags/nbsp.py:30 | joining one more piece appends the separator and the piece |
| Strings.RemoveChar | compatible_index_sequences/forms.py:15 | `replace(' ', '')` never lengthens |
| Strings.RemoveCharDrops | compatible_index_sequences/forms.py:15 | the character is gone, and exactly its occurrences were removed |
| Strings.RemoveCharKeeps | compatible_index_sequences/forms.py:15 | every other character keeps its count |
| Strings.CountConcat | compatible_index_sequences/forms.py:20 | counts add over concatenation |
| Strings.SplitLines | compatible_index_sequences/forms.py:13 | `splitlines()` is empty exactly for the empty string, and no line holds a line break |
| Strings.JoinSplitLines | compatible_index_sequences/forms.py:13 | for text with only "\n" breaks and no trailing one, joining the lines with "\n" gives it back |
| TemplateTags.CeilDiv | compatible_index_sequences/templatetags/list2table.py:62 | `ceil(len / n)` rows: never more than the items, and none exactly for no items (`TemplateTags.CeilDivIsQuotient` and `TemplateTags.CeilDivIsCeiling` give its value) |
| TemplateTags.CeilDivIsQuotient | compatible_index_sequences/templatetags/list2table.py:62 | the number of rows is `ceil(len / n)` |
| TemplateTags.StartIsProduct | compatible_index_sequences/templatetags/list2table.py:62 | row i starts at n * i |
| TemplateTags.CeilDivIsCeiling | compatible_index_sequences/templatetags/list2table.py:62 | the rows cover the list, and one row fewer would not |
| TemplateTags.SliceDrop | compatible_index_sequences/templatetags/list2table.py:62 | a slice of a suffix is a shifted slice |
| TemplateTags.Chunks | compatible_index_sequences/templatetags/list2table.py:62 | the comprehension's rows: no more rows than items, and each row holds 1 to n items (`TemplateTags.ChunkIsSlice` and `TemplateTags.FlattenChunks` give the contents) |
| TemplateTags.ChunkIsSlice | compatible_index_sequences/templatetags/list2table.py:62 | row i is `thelist[n * i:n * (i + 1)]` |
| TemplateTags.FlattenChunks | compatible_index_sequences/templatetags/list2table.py:57-62 | the rows, concatenated, give the list back |
| TemplateTags.ChunkSizes | compatible_index_sequences/templatetags/list2table.py:57-62 | ceil(len / n) rows; every row but the last holds n items, the last between 1 and n |
| TemplateTags.SingleRow | compatible_index_sequences/templatetags/list2table.py:36-54 | a list no longer than n is one row |
| TemplateTags.List2TableEdges | compatible_index_sequences/templatetags/list2table.py:57-62 | no n or no list wraps the input in one row; n = 0 raises ZeroDivisionError; a negative n or an empty list gives no rows |
| TemplateTags.List2Table | compatible_index_sequences/templatetags/list2table.py:57-62 | `[thelist]` when `int(n)` or `list(thelist)` fails, ZeroDivisionError for n = 0, no rows for a negative n, otherwise the rows of n; stated by the `Chunk`, `Flatten` and `List2TableEdges` lemmas |
| TemplateTags.Nbsp | compatible_index_sequences/templatetags/nbsp.py:30 | every space becomes `&nbsp;`; stated by the `Nbsp...` lemmas |
| TemplateTags.JoinWithoutSpace | compatible_index_sequences/templatetags/nbsp.py:30 | joining space-free pieces with the entity holds no space |
| TemplateTags.NbspReplacesEverySpace | compatible_index_sequences/templatetags/nbsp.py:30 | no space is left, and each space became the six characters of the entity |
| TemplateTags.NbspLength | compatible_index_sequences/templatetags/nbsp.py:30 | the length grows by 5 for each space |
| TemplateTags.NbspWithoutSpaces | compatible_index_sequences/templatetags/nbsp.py:30 | text without spaces is unchanged |
| TemplateTags.NbspAtFirstSpace | compatible_index_sequences/templatetags/nbsp.py:30 | the first space becomes the entity and the rest is filtered on |
| TemplateTags.NbspLeadingSpace | compatible_index_sequences/templatetags/nbsp.py:27-30 | a leading space becomes a leading entity |
| TemplateTags.NbspTrailingSpace | compatible_index_sequences/templatetags/nbsp.py:27-30 | a trailing space becomes a trailing entity |
| Indexing.IdField | compatible_index_sequences/classes.py:34-38 | a single id is wrapped in a list, a list is kept |
| Indexing.NewIndexingData | compatible_index_sequences/classes.py:28-38 | the constructor with `__post_init__`: each id argument that is not a list is wrapped in a list; stated by `Indexing.NewIndexingDataNormalises` |
| Indexing.NewIndexingDataNormalises | compatible_index_sequences/classes.py:28-38 | a new record keeps its sequences and sample id, and holds its ids as lists |
| Indexing.SingleRecord | compatible_index_sequences/classes.py:95 | `IndexingData(seq)`, also built at forms.py:39: a single-indexed record of that sequence, with no ids and no sample id |
| Indexing.IndexingType | compatible_index_sequences/classes.py:40-46 | ValueError exactly when index 1 is missing; 'single' exactly without index 2, 'dual' exactly with it |
| Indexing.AsEntries | compatible_index_sequences/classes.py:82 | one record entry per record |
| Indexing.InitialEntries | compatible_index_sequences/classes.py:84-86 | a single record is wrapped in a list, a list is kept |
| Indexing.Appended | compatible_index_sequences/classes.py:88-112 | the only error is TypeError |
| Indexing.AppendedText | compatible_index_sequences/classes.py:93-101 | a string is accepted exactly when it has at most one comma; it becomes one record, single without a comma, dual with one, and index 1 + "," + index 2 gives the string back |
| Indexing.AppendedList | compatible_index_sequences/classes.py:104-110 | a list is accepted exactly when it is all strings or all records; strings become one nested entry, records are appended one by one |
| Indexing.IndexingDataSet.constructor | compatible_index_sequences/classes.py:82-86 | the collection holds the initial records |
| Indexing.IndexingDataSet.Add | compatible_index_sequences/classes.py:88-112 | a collection is extended by the other's records; an accepted value is appended; a rejected one raises and changes nothing |
| Indexing.Records | compatible_index_sequences/classes.py:115-116 | reading the records raises AttributeError exactly when some entry is a nested list |
| Indexing.RecordsAppend | compatible_index_sequences/classes.py:88-112 | the records of two collections, one after the other |
| Indexing.ElementsCard | compatible_index_sequences/classes.py:117 | `len(set(xs)) <= len(xs)`, with equality exactly for distinct members |
| Indexing.HasRepeats | compatible_index_sequences/classes.py:117 | `len(xs) > len(set(xs))` exactly when some value repeats |
| Indexing.IndexPairsOf | compatible_index_sequences/classes.py:115-116 | the (index 1, index 2) pair of every record |
| Indexing.HasUniqueIndexSeqs | compatible_index_sequences/classes.py:114-120 | True exactly when no two records share the (index 1, index 2) pair; AttributeError on a nested entry |
| Indexing.HasUniqueSampleIds | compatible_index_sequences/classes.py:122-127 | True exactly when no two records share a sample id; AttributeError on a nested entry |
| Indexing.DoubledSetRepeats | compatible_index_sequences/classes.py:73-75 | a collection extended by itself never has unique index pairs |
| Indexing.CountPresent | compatible_index_sequences/classes.py:133-135 | `len(filter(None, ...))`: 0 exactly when no index 2 is present, the full length exactly when all are |
| Indexing.Index1Of | compatible_index_sequences/classes.py:141 | index 1 of every record |
| Indexing.Index2Of | compatible_index_sequences/classes.py:144 | index 2 of every record |
| Indexing.SampleIdOf | compatible_index_sequences/classes.py:147-148 | the sample id of every record, '' for a missing one |
| Indexing.Index1Sequences | compatible_index_sequences/classes.py:140-141 | index 1 of every record; AttributeError on a nested entry |
| Indexing.Index2Sequences | compatible_index_sequences/classes.py:143-144 | index 2 of every record; AttributeError on a nested entry |
| Indexing.SampleIds | compatible_index_sequences/classes.py:146-148 | every sample id, '' for a missing one; AttributeError on a nested entry |
| Indexing.GettersAppend | compatible_index_sequences/classes.py:140-148 | after an extension, each getter lists the first collection's values, then the second's |
| Indexing.ProjectionsAppend | compatible_index_sequences/classes.py:140-148 | the projections distribute over concatenation |
| Indexing.GetIndexingType | compatible_index_sequences/classes.py:129-138 | None for an empty collection; 'single' exactly when no index 2 is present, 'dual' exactly when all are, 'mixed' otherwise; AttributeError on a nested entry |
| Indexing.EmptyIndex2Disagrees | compatible_index_sequences/classes.py:40-46 | a record with index 2 = "" is 'dual' alone, yet its collection is 'single' |
| Indexing.SingleRecordSet | compatible_index_sequences/classes.py:129-138 | a collection of one single-indexed record is 'single' |
| Indexing.IndexSequences | compatible_index_sequences/classes.py:151-156 | index 1 or index 2 sequences, ValueError for any other number |
| Indexing.FlattenAsWritten | compatible_index_sequences/classes.py:157 | as written: TypeError exactly when a sequence is None; otherwise every item is one character |
| Indexing.FlattenAsWrittenLength | compatible_index_sequences/classes.py:157 | the flattened list is empty exactly when every sequence is empty |
| Indexing.MinIndexLengthAsWritten | compatible_index_sequences/classes.py:150-161 | as written: ValueError for an index number other than 1 or 2 |
| Indexing.Values | compatible_index_sequences/classes.py:159 | the sequences of a list that holds no None |
| Indexing.MinIndexLength | compatible_index_sequences/classes.py:150-161 | corrected: ValueError for a bad index number and the getter's error for a nested entry; otherwise an answer exactly when no sequence is None, and TypeError (`len(None)`) when one is; a finite answer is a lower bound on every sequence length and attained by one; infinity exactly for an empty collection |
| Indexing.MinIndexLengthAsWrittenIsOne | compatible_index_sequences/classes.py:157-159 | as written, any collection with a non-empty sequence answers 1 |
| Indexing.MinIndexLengthCounterexample | compatible_index_sequences/classes.py:150-161 | one record "ACGT": 1 as written, 4 intended |
| Forms.NonEmpty | compatible_index_sequences/forms.py:14 | `filter(None, ...)` keeps exactly the non-empty lines |
| Forms.Despaced | compatible_index_sequences/forms.py:15 | every line with its spaces removed |
| Forms.CleanedLines | compatible_index_sequences/forms.py:13-15 | the lines `clean_custom_index_text` checks: at most one per line of the text, and none holds a space (`Forms.CleanedLinesKeep` gives the provenance of each) |
| Forms.Tally | compatible_index_sequences/forms.py:18-20 | a counter entry never exceeds the number of lines |
| Forms.Bump | compatible_index_sequences/forms.py:20 | `counter[c] += 1` adds c as a key, raises its count by one and changes nothing else |
| Forms.CounterStep | compatible_index_sequences/forms.py:19-20 | one loop step keeps the counter equal to the tally of the lines seen |
| Forms.MixedCommasByCounts | compatible_index_sequences/forms.py:26-28 | the counter has two keys or more exactly when two lines differ in comma count |
| Forms.TallyLines | compatible_index_sequences/forms.py:18-23 | the loop reports an invalid character exactly when some line has one, and otherwise leaves the exact tally of comma counts |
| Forms.CleanCustomIndexText | compatible_index_sequences/forms.py:12-32 | the cleaning is exactly the reference rule: split into lines, drop empty ones, remove spaces; reject a bad character first, then mixed comma counts |
| Forms.CleanedText | compatible_index_sequences/forms.py:12-32 | the promise of `clean_custom_index_text` over the cleaned lines: a bases error, else a mixing error, else the lines; the method `Forms.CleanCustomIndexText` is proved equal to it, and its meaning is stated by `Forms.CleanedTextAccepted` and `Forms.CleanedTextAccepts` |
| Forms.TallyAbsent | compatible_index_sequences/forms.py:18-20 | a comma count no line has is tallied 0 |
| Forms.CommaCountsSnoc | compatible_index_sequences/forms.py:19-20 | one more line adds its comma count to the keys |
| Forms.CleanedLinesKeep | compatible_index_sequences/forms.py:13-15 | each cleaned line comes from a non-empty line of the text, holds no space, keeps the count of every other character, and is '' exactly when its line held only spaces |
| Forms.OnlySpaces | compatible_index_sequences/forms.py:15 | a line of spaces only is emptied |
| Forms.CleanedTextAccepted | compatible_index_sequences/forms.py:12-32 | accepted lines are non-empty, hold only bases and commas, and share one comma count |
| Forms.CleanedTextAccepts | compatible_index_sequences/forms.py:12-32 | lines of bases and commas with one comma count are accepted unchanged |
| Forms.CleanedTextBasesFirst | compatible_index_sequences/forms.py:19-23 | a bad character is reported even when the comma counts are mixed too |
| Forms.LineRecord | compatible_index_sequences/forms.py:37-43 | a record with index 1, no ids and no sample id; index 2 exactly when the line has a comma |
| Forms.LineRecordAsAdded | compatible_index_sequences/forms.py:37-43 | the record is what `add` of the same string would append; index 1 + "," + index 2 is the line |
| Forms.ConvertIndexListToIndexingData | compatible_index_sequences/forms.py:35-48 | ValidationError exactly when some line has two commas or more; otherwise a new collection with one record per line, in order |
| Forms.ConvertedEntries | compatible_index_sequences/forms.py:35-48 | one record entry per line |
| Forms.ConvertedIndexingType | compatible_index_sequences/forms.py:35-48 | comma-free lines give a 'single' collection; lines with one comma, not at the end, give 'dual' |
| ClientCheck.Mismatches | compatible_index_sequences/static/compatible_index_sequences/js/app.js:56-66 | the count never exceeds the shorter length |
| ClientCheck.Hamming | compatible_index_sequences/static/compatible_index_sequences/js/app.js:56-66 | the loop counts the mismatches of the common prefix |
| ClientCheck.MismatchesCountsPositions | compatible_index_sequences/static/compatible_index_sequences/js/app.js:56-66 | the count is the number of differing positions below the shorter length |
| ClientCheck.MismatchesProperties | compatible_index_sequences/static/compatible_index_sequences/js/app.js:56-66 | 0 against itself, symmetric, bounded by both lengths, 0 exactly when one string is a prefix of the other |
| ClientCheck.MismatchesIgnoresTail | compatible_index_sequences/static/compatible_index_sequences/js/app.js:57 | characters beyond the shorter string are never compared |
| ClientCheck.MismatchesAgreesWithServer | compatible_index_sequences/static/compatible_index_sequences/js/app.js:56-66 | on non-empty strings of one length it agrees with the server's `hamming_distance` |
| ClientCheck.MismatchesCaseSensitive | compatible_index_sequences/static/compatible_index_sequences/js/app.js:61 | the comparison is exact: "a" and "A" are one apart |
| ClientCheck.PushedAllMarked | compatible_index_sequences/static/compatible_index_sequences/js/app.js:79-98 | after the last row, the pushed elements are exactly those the rule marks |
| ClientCheck.PushSelectedPairs | compatible_index_sequences/static/compatible_index_sequences/js/app.js:80-87 | the first inner loop pushes both members of every close selected pair (s1, s2) with s2 > s1 |
| ClientCheck.PushedPairStep | compatible_index_sequences/static/compatible_index_sequences/js/app.js:84-86 | one pair step pushes s1 and s2 exactly when they are close, and nothing else |
| ClientCheck.PushUnselected | compatible_index_sequences/static/compatible_index_sequences/js/app.js:90-97 | the second inner loop pushes every unselected element close to selected s1 |
| ClientCheck.IncompatibleElements | compatible_index_sequences/static/compatible_index_sequences/js/app.js:79-98 | an element is pushed exactly when it is a selected one close to another selected one, or an unselected one close to a selected one |
| ClientCheck.Marked | compatible_index_sequences/static/compatible_index_sequences/js/app.js:79-98 | a selected index is marked when another selected index is too close; an unselected one when a selected index is too close; two unselected ones are never compared |
| ClientCheck.Page.constructor | compatible_index_sequences/static/compatible_index_sequences/js/app.js:100 | no element is marked at first |
| ClientCheck.Page.CheckCompatibility | compatible_index_sequences/static/compatible_index_sequences/js/app.js:69-102 | after a check, the marked elements are exactly those the rule marks for the current selection; older marks are gone |

## Left out

- `weblogo_base64` (`utils.py:282-310`): it draws an image through an external plotting library.
- `index_list_from_samplesheet` (`utils.py:132-186`): it parses uploaded files, so `IndexingDataSet.add` of its result is not modelled.
- `minimum_index_length_from_sets` (`utils.py:217-224`): it is left out because its bare `except` hides every failure of `min_length`.
- `is_timed_out` (`utils.py:189-190`): the wall clock becomes the oracle `expired`, which answers for each reading of the clock by its number.
- The Django form classes and their `clean` methods, and the views, URLs, admin, `dataclasses.py` and database queries: these are framework glue. A pool arrives as a list of sequences, or None when it has no `index_set`.
- `min_index_1_length` and `min_index_2_length` (`classes.py:163-167`): they call `_get_min_index_length` without `self.` and would always raise NameError. The helper itself is modelled.
- `Distance.Upper`: only ASCII letters are upper-cased. Python's full Unicode case mapping, and the case folding of `re.IGNORECASE` in the validators, are not modelled.
- `ClientCheck.Page.CheckCompatibility`: the page's elements become two lists of strings. jQuery selection, `.text().trim()` and the DOM are not modelled.
- `TemplateTags.Nbsp`: `mark_safe` is treated as the identity.
- `Indexing.IndexingDataSet.constructor`: a list passed in is copied, so the aliasing between the caller's list and the collection is not modelled.
- `Indexing.IndexingDataSet.Add`: the `List[str]` branch (`classes.py:102-103`) can never be taken and is left out.
- `Search.SubsetSearch.FindCompatibleSubset`: `previous_list` is modelled as one list owned by the search object. The Python default argument that all callers share is this same object.
- `Search.Verdicts`: the check of each combination is answered before the loop. It is pure, so the answers are the same.
- Distance.Prefix: does not model a negative window. A window (`Length`) is a natural number or infinity, and Python's slice `s[0:-k]`, which drops the last k characters, is not modelled.
- Distance.TooClose: does not model a negative window. A window (`Length`) is a natural number or infinity, and Python's slice `s[0:-k]`, which drops the last k characters, is not modelled.
- Distance.IsSelfCompatible: does not model a negative window. A window (`Length`) is a natural number or infinity, and Python's slice `s[0:-k]`, which drops the last k characters, is not modelled.
- Distance.FindIncompatibleIndexPairs: does not model a negative window. A window (`Length`) is a natural number or infinity, and Python's slice `s[0:-k]`, which drops the last k characters, is not modelled.
- Alignment.GenerateAlignment: does not model a negative window. A window (`Length`) is a natural number or infinity, and Python's slice `s[0:-k]`, which drops the last k characters, is not modelled.
- Alignment.GenerateAlignmentShape: does not model a negative window. A window (`Length`) is a natural number or infinity, and Python's slice `s[0:-k]`, which drops the last k characters, is not modelled.
- Alignment.GenerateIncompatibleAlignments: does not model a negative window. A window (`Length`) is a natural number or infinity, and Python's slice `s[0:-k]`, which drops the last k characters, is not modelled.
- Models.IsSelfCompatible: does not model a negative window. A window (`Length`) is a natural number or infinity, and Python's slice `s[0:-k]`, which drops the last k characters, is not modelled.
- Models.MinLength': does not model a negative window. A window (`Length`) is a natural number or infinity, and Python's slice `s[0:-k]`, which drops the last k characters, is not modelled.
- Pools.RemoveIncompatible: does not model a negative window. A window (`Length`) is a natural number or infinity, and Python's slice `s[0:-k]`, which drops the last k characters, is not modelled.
- Pools.JoinTwoCompatibleSets: does not model a negative window. A window (`Length`) is a natural number or infinity, and Python's slice `s[0:-k]`, which drops the last k characters, is not modelled.
- Search.Find: does not model a negative window. A window (`Length`) is a natural number or infinity, and Python's slice `s[0:-k]`, which drops the last k characters, is not modelled.

## Findings

| source | as written | input that shows it | evidently intended | confidence | as-written member | corrected member |
|---|---|---|---|---|---|---|
| compatible_index_sequences/utils.py:249-258 | for a pool that exists but is empty, `len(...)` is appended to `set_lengths` before `min_length()` raises, and the `except` appends `inf` again; the zip then pairs later pools with the wrong set size | pools [empty, 5 sequences of length 8, 10 sequences of length 8] | one set length per pool, giving the order [1, 2, 0] instead of [2, 1, 0] | not executed | Pools.OptimizeSetOrderMisaligned | Pools.OptimizeSetOrderRanks |
| compatible_index_sequences/classes.py:157 | the comprehension flattens the list of sequences into their characters, so the minimum length is 1 whenever any sequence is non-empty | one record with index 1 "ACGT" | the length of the shortest sequence, 4 | not executed | Indexing.MinIndexLengthCounterexample | Indexing.MinIndexLength |
