# BPE training, modelled in Dafny

This project models the two byte-pair-encoding trainers of the CS336
assignment 1 code base. Both take a corpus split into pre-tokens and a list
of special tokens. Both learn merges until the vocabulary reaches
`vocab_size`, and both return the vocabulary (id → bytes) and the merges in
the order they were made.

- `bpe.py`, the reference trainer. It seeds the vocabulary with the 256
  single bytes and the special tokens. It then repeats three steps:
  - recount every adjacent pair of every pre-token from scratch
    (`get_pair_freq_counts`);
  - pick the most frequent pair, with ties going to the greatest pair;
  - merge that pair everywhere (`merge`) and record the merged token.

  It stops when the merge budget is spent or no pair is left.
- `bpe_zitong.py`, the incremental trainer. It counts pre-tokens once with a
  `Counter` into a table of distinct pre-tokens. It builds a weighted pair
  table `pair_freq` once. At every merge site it patches that table with
  the pairs formed with the left and right neighbours
  (`_update_byte_tuple` and lines 111-129), instead of recounting.

The model proves:
- the incremental bookkeeping is a refinement of the recount. After every
  merge, the patched pair table holds, for every pair, exactly the weighted
  recount of the rewritten table (`Update.IncrementalMatchesRecount`).
- each key is rewritten exactly as `merge` rewrites it.
- the recount loop is characterised as a greedy sequence
  (`Reference.MergesGreedy`, `Reference.MergesUnique`).
- the reference result depends only on the multiset of pre-tokens
  (`CorpusOrder.TrainBpeOrderFree`).

The incremental trainer is modelled twice:
- as written, as a function that may fail (`Incremental.AsWrittenMerges`,
  `Incremental.AsWrittenTrain`). It agrees with the reference exactly when the
  reference fills the vocabulary (`Incremental.AsWrittenTrainAgrees`).
- corrected, as a method with loops (`Incremental.Train`). It stops when no
  pair is left and drops pairs whose count falls to zero. It returns exactly
  what `bpe.py` returns, on every input.

The two differences are stated as findings below.

Files, in dependency order:

| file | module | what it holds |
|---|---|---|
| `bytes.dfy` | `Bytes` | bytes, tokens, keys, pairs; occurrence counting |
| `selection.dfy` | `Selection` | Python ordering of `bytes` and of pairs; `max` by `(count, pair)` |
| `counting.dfy` | `Counting` | pair counts: recount, `get_pair_freq_counts`, the weighted table, the initial `pair_freq` |
| `merging.dfy` | `Merging` | `merge` |
| `update.dfy` | `Update` | `_update_byte_tuple` and the per-site patch of `pair_freq` |
| `vocabulary.dfy` | `Vocabulary` | both vocabulary initialisations; `max(vocab.keys()) + 1` |
| `pretokens.dfy` | `Pretokens` | byte splitting, the pre-token `Counter`, the pre-token table |
| `reference.dfy` | `Reference` | `train_bpe` of `bpe.py` |
| `order.dfy` | `CorpusOrder` | independence of the reference from corpus order |
| `incremental.dfy` | `Incremental` | `train_bpe` of `bpe_zitong.py`, as written and corrected |
| `findings.dfy` | `Findings` | the two inputs on which the code as written parts from `bpe.py` |

In the table below, `bpe.py` stands for `assignment_1_Basics/cs336_basics/bpe.py`
and `bpe_zitong.py` for `assignment_1_Basics/cs336_basics/bpe_zitong.py`.

## Model

| member | source | states |
|---|---|---|
| Bytes.Occ | assignment_1_Basics/cs336_basics/bpe.py:50-52 | definition: the number of positions `i` at which `(k[i], k[i+1])` is the pair, what one list adds to `freq_count_bp`; stated by `OccPositive` and `OccConcat` |
| Bytes.OccConcat | assignment_1_Basics/cs336_basics/bpe.py:49-52 | the pairs of a concatenation are those of each part plus the one pair across the cut, which is why counting per pre-token never counts a pair that spans two pre-tokens |
| Bytes.OccPositive | assignment_1_Basics/cs336_basics/bpe.py:50-52 | a pair is counted at least once exactly when it is one of the key's adjacent pairs |
| Selection.TokenLess | assignment_1_Basics/cs336_basics/bpe.py:107 | definition: Python's `bytes` order, byte by byte, a proper prefix first; stated by `TokenLessTotal` and `PairLessStrictTotalOrder` |
| Selection.PairLess | assignment_1_Basics/cs336_basics/bpe.py:107 | definition: Python's order on `(bytes, bytes)` tuples, first component first; stated by `PairLessStrictTotalOrder` |
| Selection.TokenLessTotal | assignment_1_Basics/cs336_basics/bpe.py:107 | Python `bytes` comparison orders any two distinct byte strings |
| Selection.PairLessStrictTotalOrder | assignment_1_Basics/cs336_basics/bpe.py:107 | comparing pairs as tuples of `bytes` is irreflexive, transitive, total and asymmetric |
| Selection.TopExists | assignment_1_Basics/cs336_basics/bpe.py:107 | every non-empty set of counted pairs has a maximum under `(count, pair)` |
| Selection.TopUnique | assignment_1_Basics/cs336_basics/bpe.py:107 | that maximum is unique, so `max` does not depend on dict iteration order |
| Selection.Top | assignment_1_Basics/cs336_basics/bpe_zitong.py:99 | the selected pair is in the table and beats every other pair: a higher count, or an equal count and a greater pair |
| Selection.TopOfPositivePart | assignment_1_Basics/cs336_basics/bpe_zitong.py:99 | pairs with count zero or below never beat a pair with a positive count: the maximum of a table is the maximum of its positive part |
| Counting.Bump | assignment_1_Basics/cs336_basics/bpe_zitong.py:120 | `m[q] = m.get(q, 0) + d` creates `q` if absent, adds `d` to it, and leaves every other count alone |
| Counting.Recount | assignment_1_Basics/cs336_basics/bpe.py:45-54 | definition: `get_pair_freq_counts` as a map from each occurring pair to its number of occurrences; stated by `RecountSpec` and computed by `GetPairFreqCounts` |
| Counting.RecountSpec | assignment_1_Basics/cs336_basics/bpe.py:45-54 | the recount holds exactly the pairs that occur inside some list, each with its number of occurrences |
| Counting.CountKeyPairs | assignment_1_Basics/cs336_basics/bpe.py:50-52 | the inner loop adds 1 to every adjacent pair of one list, keeps counts at least 1, and adds the number of adjacent positions, `max(len - 1, 0)`, to the total |
| Counting.GetPairFreqCounts | assignment_1_Basics/cs336_basics/bpe.py:45-54 | the loop returns the recount; every count is at least 1 and the counts add up to the number of adjacent positions |
| Counting.ExpandCount | assignment_1_Basics/cs336_basics/bpe_zitong.py:86-91 | counting the table unfolded into one list per occurrence gives the frequency-weighted count |
| Counting.WCountPositive | assignment_1_Basics/cs336_basics/bpe_zitong.py:86-91 | with positive frequencies a pair has a positive weighted count exactly when it occurs in some key |
| Counting.RecountExpand | assignment_1_Basics/cs336_basics/bpe_zitong.py:86-91 | the recount of the unfolded table holds the weighted count of every pair, and holds a pair exactly when that count is positive |
| Counting.AddKeyPairs | assignment_1_Basics/cs336_basics/bpe_zitong.py:87-91 | definition: the inner loop over one key from position `i`; stated by `AddKeyPairsAt` |
| Counting.AddKeyPairsAt | assignment_1_Basics/cs336_basics/bpe_zitong.py:87-91 | the pass over one key from position `i` adds `freq` per occurrence of a pair there, and creates the entry exactly when the pair occurs |
| Counting.InitialPairFreq | assignment_1_Basics/cs336_basics/bpe_zitong.py:85-91 | definition: the outer loop over the table; stated by `InitialPairFreqSpec` and `InitialPairFreqIsRecount` |
| Counting.InitialPairFreqSpec | assignment_1_Basics/cs336_basics/bpe_zitong.py:85-91 | the initial `pair_freq` gives every pair its weighted count and holds exactly the pairs occurring in some key |
| Counting.InitialPairFreqIsRecount | assignment_1_Basics/cs336_basics/bpe_zitong.py:85-91 | with positive frequencies the initial `pair_freq` equals the recount of the unfolded table |
| Merging.Merge | assignment_1_Basics/cs336_basics/bpe.py:64-72 | definition: the inner `while` loop on one list; stated by `MergeFlatten`, `MergeNoOccurrence`, `MergeLength`, `MergeHead`, `MergeRemovesPair`, and computed by `MergeLists` |
| Merging.MergeAll | assignment_1_Basics/cs336_basics/bpe.py:62-75 | definition: `merge` on every list; stated by `MergeLists` and `MergeAllPreserves` |
| Merging.MergeLists | assignment_1_Basics/cs336_basics/bpe.py:57-75 | the two nested `while` loops return one list per input list, each equal to the greedy left-to-right merge of its input |
| Merging.MergeFlatten | assignment_1_Basics/cs336_basics/bpe.py:63-73 | merging never changes the bytes a list spells out |
| Merging.MergeNoOccurrence | assignment_1_Basics/cs336_basics/bpe.py:66-72 | a list in which the pair does not occur comes back unchanged |
| Merging.MergeLength | assignment_1_Basics/cs336_basics/bpe.py:66-72 | the number of replacements lies between half the occurrences and all of them, and equals them when the two halves of the pair differ |
| Merging.MergeHead | assignment_1_Basics/cs336_basics/bpe.py:67-71 | the first output token is the joined pair when the list starts with the pair, and the list's first token otherwise |
| Merging.MergeRemovesPair | assignment_1_Basics/cs336_basics/bpe.py:66-72 | with non-empty tokens no occurrence of the pair survives the merge |
| Merging.MergeOverlapExample | assignment_1_Basics/cs336_basics/bpe.py:67-69 | occurrences do not overlap: `[a, a, a]` with `(a, a)` gives `[aa, a]` |
| Merging.MergeAllPreserves | assignment_1_Basics/cs336_basics/bpe.py:57-75 | merging a corpus keeps the number of lists and the bytes of each |
| Merging.MergeTable | assignment_1_Basics/cs336_basics/bpe_zitong.py:109-132 | every key merged and every frequency kept, in table order; stated further by `MergeAllExpand` and `Update.MergeTableKeepsKeysApart` |
| Merging.MergeAllExpand | assignment_1_Basics/cs336_basics/bpe_zitong.py:109-132 | merging the unfolded table is unfolding the merged table, so the table can stand for `bpe.py`'s list of lists |
| Update.Clip | assignment_1_Basics/cs336_basics/bpe_zitong.py:57-59 | a slice bound past the end is clipped to the end, and a bound within range is kept |
| Update.UpdateByteTuple | assignment_1_Basics/cs336_basics/bpe_zitong.py:52-61 | the bytes spelled out are kept; at a position with a right neighbour the tuple loses one element, the two tokens there are joined, and the prefix and suffix returned are the parts around them |
| Update.SiteUpdate | assignment_1_Basics/cs336_basics/bpe_zitong.py:117-128 | definition: the patch of `pair_freq` at one merge site; stated by `SiteUpdateDelta` |
| Update.OccSiteDelta | assignment_1_Basics/cs336_basics/bpe_zitong.py:117-128 | joining two adjacent tokens replaces the pairs with the left and right neighbours by the pairs with the joined token, and removes the joined pair |
| Update.SiteUpdateDelta | assignment_1_Basics/cs336_basics/bpe_zitong.py:115-128 | the patch at one merge site changes the count of every pair by `freq` times the change in its occurrences in the tuple |
| Update.RewriteFrom | assignment_1_Basics/cs336_basics/bpe_zitong.py:111-129 | definition: the `while` scan over one key; stated by `RewriteFromKey` and `RewriteFromCounts` |
| Update.RewriteFromKey | assignment_1_Basics/cs336_basics/bpe_zitong.py:111-129 | the in-place scan rewrites each key exactly as `bpe.py`'s `merge` does |
| Update.RewriteFromCounts | assignment_1_Basics/cs336_basics/bpe_zitong.py:111-129 | over a whole key the pair table changes by `freq` times the change in each pair's occurrences |
| Update.ApplyMerge | assignment_1_Basics/cs336_basics/bpe_zitong.py:109-132 | definition: one pass over the pre-token table; stated by `ApplyMergeSpec` and `IncrementalMatchesRecount` |
| Update.ApplyMergeSpec | assignment_1_Basics/cs336_basics/bpe_zitong.py:109-132 | the rewritten table is the merged table, and the pair table changes by the difference of the weighted counts after and before |
| Update.IncrementalMatchesRecount | assignment_1_Basics/cs336_basics/bpe_zitong.py:109-132 | if `pair_freq` holds the weighted counts before a merge, it holds them after it: no count goes negative, every key is rewritten as `merge` rewrites it, and the counts equal the recount of `bpe.py`'s merged corpus |
| Update.MergeTableKeepsKeysApart | assignment_1_Basics/cs336_basics/bpe_zitong.py:131 | keys stay pairwise distinct after a merge, so `new_pretoken_freq[key] = freq` never overwrites an entry; frequencies are kept |
| Vocabulary.ByteVocab | assignment_1_Basics/cs336_basics/bpe.py:15 | definition: ids `0..255` for the single bytes; stated by `InitVocabView` and `DirectInitVocabView` |
| Vocabulary.InitVocab | assignment_1_Basics/cs336_basics/bpe.py:13-24 | definition: `init_vocab`; stated by `InitVocabView` |
| Vocabulary.MaxId | assignment_1_Basics/cs336_basics/bpe.py:18 | `max(vocab.keys())` of a contiguous vocabulary is in it and bounds every id |
| Vocabulary.AddToken | assignment_1_Basics/cs336_basics/bpe.py:118-119 | the token goes under an id above every id in use; old entries are kept and the vocabulary grows by exactly one |
| Vocabulary.AddTokens | assignment_1_Basics/cs336_basics/bpe.py:17-20 | adding tokens one at a time keeps the ids contiguous and grows the vocabulary by the number of tokens |
| Vocabulary.AddTokensAppends | assignment_1_Basics/cs336_basics/bpe.py:17-20 | adding tokens in order puts the `j`-th one under id `len + j` |
| Vocabulary.InitVocabView | assignment_1_Basics/cs336_basics/bpe.py:13-24 | `init_vocab` holds `256 + len(special_tokens)` ids with no gap: the bytes, then the special tokens in order |
| Vocabulary.DirectInitVocab | assignment_1_Basics/cs336_basics/bpe_zitong.py:78-80 | writing special token `i` under `256 + i` keeps the ids contiguous, with `256 + len(special_tokens)` entries |
| Vocabulary.DirectInitVocabView | assignment_1_Basics/cs336_basics/bpe_zitong.py:78-80 | that vocabulary holds the bytes, then the special tokens in order |
| Vocabulary.SameStart | assignment_1_Basics/cs336_basics/bpe_zitong.py:77-80 | both trainers start from the same vocabulary |
| Pretokens.SplitBytes | assignment_1_Basics/cs336_basics/bpe_zitong.py:44 | definition: one single-byte token per byte; stated by `SplitBytesFlatten` and `SplitBytesInjective` |
| Pretokens.ByteLists | assignment_1_Basics/cs336_basics/bpe.py:38-42 | definition: the split of every pre-token, in corpus order; stated by `BuildTableExpand` and `CorpusOrder.ByteListsPermutation` |
| Pretokens.SplitBytesFlatten | assignment_1_Basics/cs336_basics/bpe_zitong.py:44 | the split spells out the pre-token again and has no empty token |
| Pretokens.SplitBytesInjective | assignment_1_Basics/cs336_basics/bpe_zitong.py:44-47 | different pre-tokens give different keys |
| Pretokens.Increment | assignment_1_Basics/cs336_basics/bpe_zitong.py:17 | definition: `Counter` counting one more pre-token; stated by `IncrementItems`, `IncrementWellFormed` and `IncrementOccurrences` |
| Pretokens.IncrementItems | assignment_1_Basics/cs336_basics/bpe_zitong.py:17 | counting a pre-token adds it to the held pre-tokens and nothing else |
| Pretokens.IncrementWellFormed | assignment_1_Basics/cs336_basics/bpe_zitong.py:17 | counting keeps each pre-token held once, with a positive count |
| Pretokens.IncrementOccurrences | assignment_1_Basics/cs336_basics/bpe_zitong.py:17 | counting a pre-token adds exactly one occurrence of it |
| Pretokens.Tally | assignment_1_Basics/cs336_basics/bpe_zitong.py:17 | definition: `Counter` of the pre-token sequence; stated by `TallySpec` |
| Pretokens.TallySpec | assignment_1_Basics/cs336_basics/bpe_zitong.py:17 | `Counter(pretokens)` holds each pre-token once with a positive count and stands for the same multiset of occurrences as the corpus |
| Pretokens.BuildTable | assignment_1_Basics/cs336_basics/bpe_zitong.py:44-47 | definition: the table `pretoken_freq`; stated by `BuildTableWellFormed` and `BuildTableExpand` |
| Pretokens.BuildTableWellFormed | assignment_1_Basics/cs336_basics/bpe_zitong.py:44-47 | the table's keys spell distinct byte strings, so no assignment overwrites another; frequencies are positive and tokens non-empty |
| Pretokens.BuildTableExpand | assignment_1_Basics/cs336_basics/bpe_zitong.py:44-47 | the table unfolded is `bpe.py`'s list of lists for the corpus grouped by pre-token |
| Reference.Merges | assignment_1_Basics/cs336_basics/bpe.py:96-124 | the loop makes at most `no_of_merges` merges, and none when that number is zero or negative |
| Reference.Record | assignment_1_Basics/cs336_basics/bpe.py:118-124 | definition: the seeded vocabulary with each merge's token added; stated by `TrainBpeVocab` |
| Reference.TrainBpe | assignment_1_Basics/cs336_basics/bpe.py:78-128 | definition: `train_bpe` from the pre-tokens; stated by `TrainBpeVocab`, `MergesGreedy`, `MergesUnique` and `CorpusOrder.TrainBpeOrderFree` |
| Reference.TrainBpeVocab | assignment_1_Basics/cs336_basics/bpe.py:78-128 | the vocabulary holds the bytes, the special tokens and each merged token in merge order under ids `0, 1, 2, ...`; its size is `256 + len(special_tokens) + len(merges)`, with at most `vocab_size - 256 - len(special_tokens)` merges |
| Reference.MergesGreedy | assignment_1_Basics/cs336_basics/bpe.py:96-124 | every merge is the top pair of the recount of the corpus after the merges before it |
| Reference.MergesStopsWhenNoPairs | assignment_1_Basics/cs336_basics/bpe.py:98-103 | the loop makes fewer merges than asked only when the corpus it reached has no adjacent pair left |
| Reference.MergesUnique | assignment_1_Basics/cs336_basics/bpe.py:96-124 | conversely, a greedy merge sequence that is either full length or leaves no pair is exactly what the loop makes |
| CorpusOrder.OccAllPermutation | assignment_1_Basics/cs336_basics/bpe.py:49-52 | occurrence counts do not depend on the order of the lists |
| CorpusOrder.RecountPermutation | assignment_1_Basics/cs336_basics/bpe.py:45-54 | the recount does not depend on the order of the lists |
| CorpusOrder.MergeAllPermutation | assignment_1_Basics/cs336_basics/bpe.py:62-75 | merging a reordered corpus gives a reordering of the merged corpus |
| CorpusOrder.ByteListsPermutation | assignment_1_Basics/cs336_basics/bpe.py:38-40 | splitting a reordered corpus gives a reordering of the split corpus |
| CorpusOrder.MergesPermutation | assignment_1_Basics/cs336_basics/bpe.py:96-124 | the loop makes the same merges on any reordering of the lists |
| CorpusOrder.TrainBpeOrderFree | assignment_1_Basics/cs336_basics/bpe.py:78-128 | two corpora with the same pre-tokens, counted with multiplicity, give the same vocabulary and merges |
| Incremental.AsWrittenMerges | assignment_1_Basics/cs336_basics/bpe_zitong.py:97-132 | the loop as written makes exactly `vocab_size - len(vocab)` merges when it succeeds, and fails only while rounds are left |
| Incremental.RewriteFromKeepsKeys | assignment_1_Basics/cs336_basics/bpe_zitong.py:117-128 | patching one key never removes a pair from `pair_freq` |
| Incremental.ApplyMergeKeepsKeys | assignment_1_Basics/cs336_basics/bpe_zitong.py:109-132 | a whole round never removes a pair from `pair_freq` |
| Incremental.AsWrittenNeverFailsOnceStarted | assignment_1_Basics/cs336_basics/bpe_zitong.py:99 | once `pair_freq` holds a pair, `max` always has a candidate and the loop never raises |
| Incremental.AsWrittenTables | assignment_1_Basics/cs336_basics/bpe_zitong.py:109-132 | the tables `pretoken_freq` the loop as written passes through: the starting one first, then the one each round leaves, at most one more than the rounds left |
| Incremental.AsWrittenKeepsKeysApart | assignment_1_Basics/cs336_basics/bpe_zitong.py:131 | keys that spell distinct byte strings stay distinct in every table of the run, so `new_pretoken_freq[pretoken_tuple] = freq` never overwrites an entry in any round |
| Incremental.AsWrittenRunKeepsKeysApart | assignment_1_Basics/cs336_basics/bpe_zitong.py:44-47 | starting from the table of the pre-tokens, every table of the run as written keeps its keys apart |
| Incremental.Finish | assignment_1_Basics/cs336_basics/bpe_zitong.py:102-106 | definition: the merges of the loop recorded in the vocabulary, or the error raised; stated by `AsWrittenTrainVocab` |
| Incremental.AsWrittenTrain | assignment_1_Basics/cs336_basics/bpe_zitong.py:64-136 | definition: `train_bpe` as written, from the pre-tokens; stated by `AsWrittenTrainVocab`, `AsWrittenTrainAgrees` and the findings below |
| Incremental.AsWrittenTrainVocab | assignment_1_Basics/cs336_basics/bpe_zitong.py:77-106 | a successful run has `vocab_size` entries, or the initial vocabulary if that is larger, holding the bytes, the special tokens and the merged tokens in order |
| Incremental.Prune | assignment_1_Basics/cs336_basics/bpe_zitong.py:128 | the correction: drop every pair whose count is not positive; stated by `PruneIsRecount` |
| Incremental.PruneIsRecount | assignment_1_Basics/cs336_basics/bpe_zitong.py:117-128 | a pair table holding the weighted counts, pruned, is exactly the recount of the unfolded table |
| Incremental.RoundTop | assignment_1_Basics/cs336_basics/bpe_zitong.py:99 | while the reference still has pairs, the top pair of `pair_freq`, zero counts included, is the reference's top pair |
| Incremental.RoundKeeps | assignment_1_Basics/cs336_basics/bpe_zitong.py:109-132 | one round keeps `pair_freq` equal to the weighted counts, keeps frequencies positive, and the new table unfolds to the merged corpus |
| Incremental.AsWrittenMergesAgree | assignment_1_Basics/cs336_basics/bpe_zitong.py:97-132 | from any state where `pair_freq` holds the weighted counts, the loop as written makes the reference's merges exactly when the reference makes all of them; otherwise it fails or continues past the reference's last merge |
| Incremental.StartTable | assignment_1_Basics/cs336_basics/bpe_zitong.py:84-91 | the starting table has positive frequencies and its `pair_freq` holds the weighted counts, equal to the recount |
| Incremental.StartMerges | assignment_1_Basics/cs336_basics/bpe_zitong.py:44-47 | `bpe.py` makes the same merges on the unfolded table as on the corpus itself |
| Incremental.AsWrittenTrainAgrees | assignment_1_Basics/cs336_basics/bpe_zitong.py:64-136 | from the same pre-tokens, `train_bpe` as written returns exactly `bpe.py`'s result when that result fills the vocabulary; otherwise it raises, or it returns extra merges after the reference's own |
| Incremental.CorrectedRound | assignment_1_Basics/cs336_basics/bpe_zitong.py:99-132 | a corrected round keeps the pruned table equal to the recount, and the reference's remaining merges are its top pair followed by those of the merged table |
| Incremental.RecordMerge | assignment_1_Basics/cs336_basics/bpe_zitong.py:105-106 | recording a merge appends its joined token to the vocabulary |
| Incremental.CorrectedStep | assignment_1_Basics/cs336_basics/bpe_zitong.py:99-132 | one corrected round appends the top pair, grows the vocabulary by its token, and keeps the table equal to the recount and on the reference's track |
| Incremental.CorrectedLoop | assignment_1_Basics/cs336_basics/bpe_zitong.py:97-132 | the corrected loop makes exactly the reference's merges, and its vocabulary gains their joined tokens in order |
| Incremental.Train | assignment_1_Basics/cs336_basics/bpe_zitong.py:64-136 | the corrected trainer returns exactly what `bpe.py`'s `train_bpe` returns on the same pre-tokens |
| Findings.SingleByteNoPairs | assignment_1_Basics/cs336_basics/bpe_zitong.py:85-91 | a one-byte pre-token gives an empty `pair_freq` and an empty recount |
| Findings.TwoBytesOnePair | assignment_1_Basics/cs336_basics/bpe_zitong.py:85-91 | a two-byte pre-token gives one pair with count 1, in `pair_freq` and in the recount |
| Findings.EmptyPairTableRaises | assignment_1_Basics/cs336_basics/bpe_zitong.py:99 | on a one-byte corpus with room for merges, the code as written raises while `bpe.py` returns no merge |
| Findings.StalePairKept | assignment_1_Basics/cs336_basics/bpe_zitong.py:128 | after the only occurrence of a pair is merged, the pair stays in `pair_freq` with count 0 |
| Findings.StaleLoop | assignment_1_Basics/cs336_basics/bpe_zitong.py:97-132 | with two rounds left on the pre-token `[x, y]`, the loop as written merges `(x, y)` twice |
| Findings.ReferenceMergesOnce | assignment_1_Basics/cs336_basics/bpe.py:96-124 | `bpe.py` merges `(x, y)` once on `[x, y]` and stops |
| Findings.StaleTrainAsWritten | assignment_1_Basics/cs336_basics/bpe_zitong.py:97-132 | on `[x, y]` with room for two merges, the code as written succeeds with the merges `[(x, y), (x, y)]` and puts `xy` under ids `256 + len(special_tokens)` and the next one |
| Findings.StaleZeroPairReselected | assignment_1_Basics/cs336_basics/bpe_zitong.py:128 | on `[x, y]` with room for two merges, the code as written returns the merge `(x, y)` twice, with its token under two ids, while `bpe.py` returns it once |

## Left out

- Pre-tokenization by the GPT-2 regular expression (`bpe.py` lines 27-36,
  `bpe_zitong.py` lines 11-17) is not modelled. The trainers take the
  pre-tokens, each given by its UTF-8 bytes. UTF-8 encoding of the text and
  of the special tokens is left out for the same reason: special tokens are
  given as byte strings.
- Removing special tokens from the text (`bpe.py` lines 81-82,
  `bpe_zitong.py` lines 30-33) acts on the text before pre-tokenization, so
  it is left out with it.
- File reading (`bpe_zitong.py` lines 26-27) is I/O and is left out.
- The multi-worker path (`bpe_zitong.py` lines 38-43) is left out. It cuts
  the text into chunks, counts each chunk in a separate process and sums the
  `Counter`s. That involves concurrency, and a chunk boundary can also cut a
  pre-token in two. The model covers the one-worker path, `Counter` of the
  whole pre-token sequence.
- Logging, `tqdm` progress bars and the `print` at `bpe.py` line 127 are
  output only and are left out.
- The `try`/`except ValueError` at `bpe.py` lines 105-111 has no branch in
  the model. `max` there runs only after the emptiness check at lines
  100-103, so it cannot raise.
- `_update_byte_tuple`'s `assert len(byte_tuple) > 1` (`bpe_zitong.py`
  line 56) becomes the precondition of `Update.UpdateByteTuple`. It is only
  called at a match, where the tuple has at least two elements.
- Dict iteration order is modelled as sequence order (insertion order).
  `Selection.TopUnique` shows that the selection does not depend on it.
- Reference.TrainBpe: `vocab_size - initial_vocab_size` at `bpe.py` lines 87-89 is written as
  `vocab_size - (256 + len(special_tokens))`. `Vocabulary.InitVocabView`
  proves the seeded vocabulary has exactly that many entries.
- Incremental.AsWrittenMerges: the condition `len(vocab) < vocab_size` at
  `bpe_zitong.py` line 97 is written as a round count,
  `vocab_size - (256 + len(special_tokens))`. `Vocabulary.DirectInitVocab`
  proves the initial size, and `Vocabulary.AddToken` proves that every
  round adds exactly one entry.
- A duplicate special token is not rejected by either trainer, and the
  model does not reject it either: it gets its own id in both.
- Incremental.AsWrittenTrainAgrees: an empty special token makes
  `text.split(token)` at `bpe_zitong.py` line 32 raise `ValueError`,
  while `text.replace(token, "")` at `bpe.py` line 82 leaves the text
  alone. That happens in the text step, which is left out above. The
  agreement is therefore stated from the pre-tokens on, and on
  `special_tokens = [""]` it does not describe the source's incremental
  trainer, which raises before training starts.

## Findings

| source | as written | input that shows it | evidently intended | confidence | as-written member | corrected member |
|---|---|---|---|---|---|---|
| assignment_1_Basics/cs336_basics/bpe_zitong.py:99 | `max(pair_freq, ...)` is evaluated with no check that `pair_freq` is non-empty, so it raises `ValueError` when no pre-token has an adjacent pair to begin with, so `pair_freq` is empty; once `pair_freq` holds a pair it never raises, because entries are never deleted (`Incremental.AsWrittenNeverFailsOnceStarted`) | a corpus whose only pre-token is one byte, with `vocab_size > 256 + len(special_tokens)` | stop merging when no pair is left, as `bpe.py` does at lines 100-103 | not executed | Findings.EmptyPairTableRaises | Incremental.Train |
| assignment_1_Basics/cs336_basics/bpe_zitong.py:128 | a pair whose count falls to 0 stays in `pair_freq`, so once no pair occurs any more, a pair that occurs nowhere, with count 0, is selected, and then selected again in every round left; it need not be one merged before | the single pre-token `[x, y]` with `vocab_size = 256 + len(special_tokens) + 2`: merges `[(x, y), (x, y)]`, with `xy` under two ids; `bpe.py` gives `[(x, y)]` | only pairs that still occur are candidates, i.e. drop pairs whose count reaches 0 and stop when none is left | not executed | Findings.StaleZeroPairReselected | Incremental.Train |

`bpe.py` stops when no pair is left (lines 100-103), and because it
recounts every round (line 98), it only selects pairs that still occur.
The incremental trainer as written does neither, and the model follows
that code. Both differences are the findings above. The corrected trainer
`Incremental.Train` does both, and it matches `bpe.py`.
