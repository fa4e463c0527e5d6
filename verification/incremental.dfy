/** `train_bpe` of `bpe_zitong.py`: the corpus is counted once into a table
    of distinct pre-tokens, the pair table is built once and then patched at
    every merge site instead of being recounted. The trainer is modelled as
    written, compared with the reference trainer of `bpe.py`, and followed
    by a corrected trainer that provably agrees with the reference. */
module Incremental {
  import opened Bytes
  import opened Selection
  import opened Counting
  import opened Merging
  import opened Update
  import opened Vocabulary
  import opened Pretokens
  import opened Reference
  import opened CorpusOrder

  /** Why a run ends without a result. */
  datatype Error =
    /** `max()` over an empty `pair_freq` raises `ValueError`. */
    EmptyPairTable

  datatype Result<T> = Success(value: T) | Failure(error: Error)

  /** Patching never removes a pair from the table: a pair whose count
      drops to zero stays in it. */
  lemma {:induction false} RewriteFromKeepsKeys(t: Key, i: nat, p: Pair, f: int, pf: PairCounts)
    requires i <= |t|
    ensures pf.Keys <= RewriteFrom(t, i, p, f, pf).counts.Keys
    decreases |t| - i
  {
    if i < |t| {
      if i + 1 < |t| && t[i] == p.first && t[i + 1] == p.second {
        var s := UpdateByteTuple(t, i);
        var pf1 := SiteUpdate(s, p, f, pf);
        SiteUpdateKeepsKeys(s, p, f, pf);
        assert RewriteFrom(t, i, p, f, pf) == RewriteFrom(s.merged, i + 1, p, f, pf1);
        RewriteFromKeepsKeys(s.merged, i + 1, p, f, pf1);
      } else {
        assert RewriteFrom(t, i, p, f, pf) == RewriteFrom(t, i + 1, p, f, pf);
        RewriteFromKeepsKeys(t, i + 1, p, f, pf);
      }
    }
  }

  /** A site patch only adds entries. */
  lemma SiteUpdateKeepsKeys(s: Split, p: Pair, f: int, pf: PairCounts)
    ensures pf.Keys <= SiteUpdate(s, p, f, pf).Keys
  {
  }

  lemma {:induction false} ApplyMergeKeepsKeys(table: seq<Entry>, p: Pair, pf: PairCounts)
    ensures pf.Keys <= ApplyMerge(table, p, pf).counts.Keys
  {
    if |table| > 0 {
      var r := RewriteFrom(table[0].key, 0, p, table[0].freq, pf);
      RewriteFromKeepsKeys(table[0].key, 0, p, table[0].freq, pf);
      ApplyMergeKeepsKeys(table[1..], p, r.counts);
    }
  }

  /** Lines 97-132 as written, seen from the merges they record. The
      vocabulary grows by exactly one entry per round (`AddToken`), so the
      condition `len(vocab) < vocab_size` holds for exactly `n` more rounds,
      `n` being `vocab_size - len(vocab)` at the start. Each round takes the
      top pair of the maintained table, zero counts included, records it,
      and rewrites the table while patching the pair counts; `max` of an
      empty table raises. A run that succeeds makes exactly `n` merges, and
      a run fails only while rounds are left. */
  function AsWrittenMerges(table: seq<Entry>, pf: PairCounts, n: int): (r: Result<seq<Pair>>)
    ensures r.Success? ==> |r.value| == if n < 0 then 0 else n
    ensures r.Failure? ==> n > 0
    decreases n
  {
    if n <= 0 then Success([])
    else if |pf| == 0 then Failure(EmptyPairTable)
    else
      var top := Top(pf);
      var a := ApplyMerge(table, top, pf);
      match AsWrittenMerges(a.table, a.counts, n - 1)
      case Success(ms) => Success([top] + ms)
      case Failure(e) => Failure(e)
  }

  /** Once the pair table holds a pair, the loop as written never fails: a
      pair never leaves the table, so `max` always has a candidate. */
  lemma {:induction false} AsWrittenNeverFailsOnceStarted(table: seq<Entry>, pf: PairCounts, n: int)
    requires |pf| > 0
    ensures AsWrittenMerges(table, pf, n).Success?
    decreases n
  {
    if n > 0 {
      var top := Top(pf);
      var a := ApplyMerge(table, top, pf);
      ApplyMergeKeepsKeys(table, top, pf);
      assert top in a.counts;
      AsWrittenNeverFailsOnceStarted(a.table, a.counts, n - 1);
    }
  }

  /** The pre-token tables the loop as written passes through: the one it
      starts from, then the one each round leaves, up to the round that
      raises, if any. */
  ghost function AsWrittenTables(table: seq<Entry>, pf: PairCounts, n: int): (ts: seq<seq<Entry>>)
    ensures 0 < |ts| <= (if n < 0 then 0 else n) + 1 && ts[0] == table
    decreases n
  {
    if n <= 0 || |pf| == 0 then [table]
    else
      var a := ApplyMerge(table, Top(pf), pf);
      [table] + AsWrittenTables(a.table, a.counts, n - 1)
  }

  /** One round keeps keys that spell distinct byte strings apart. */
  lemma RoundKeepsKeysApart(table: seq<Entry>, top: Pair, pf: PairCounts)
    requires DistinctBytes(table)
    ensures DistinctBytes(ApplyMerge(table, top, pf).table)
  {
    ApplyMergeSpec(table, top, pf);
    MergeTableKeepsKeysApart(table, top);
  }

  /** Keys that spell distinct byte strings stay so through the whole run,
      so in every round the table written as a sequence stands for the dict
      `new_pretoken_freq` of line 131: no entry is ever overwritten. */
  lemma {:induction false} AsWrittenKeepsKeysApart(table: seq<Entry>, pf: PairCounts, n: int)
    requires DistinctBytes(table)
    ensures forall i :: 0 <= i < |AsWrittenTables(table, pf, n)| ==> DistinctBytes(AsWrittenTables(table, pf, n)[i])
    decreases n
  {
    if n > 0 && |pf| > 0 {
      var top := Top(pf);
      var a := ApplyMerge(table, top, pf);
      var rest := AsWrittenTables(a.table, a.counts, n - 1);
      assert AsWrittenTables(table, pf, n) == [table] + rest;
      RoundKeepsKeysApart(table, top, pf);
      AsWrittenKeepsKeysApart(a.table, a.counts, n - 1);
      forall i | 1 <= i < |rest| + 1
        ensures DistinctBytes(([table] + rest)[i])
      {
        assert ([table] + rest)[i] == rest[i - 1];
      }
    }
  }

  /** From the table of the pre-tokens (lines 44-47), whose keys spell
      distinct pre-tokens, every table of the run keeps its keys apart. */
  lemma AsWrittenRunKeepsKeysApart(pretokens: seq<seq<Byte>>, n: int)
    ensures var table := BuildTable(Tally(pretokens));
            var ts := AsWrittenTables(table, InitialPairFreq(table, map[]), n);
            forall i :: 0 <= i < |ts| ==> DistinctBytes(ts[i])
  {
    var table := BuildTable(Tally(pretokens));
    StartKeysApart(pretokens);
    AsWrittenKeepsKeysApart(table, InitialPairFreq(table, map[]), n);
  }

  /** The keys of the table of the pre-tokens spell distinct pre-tokens. */
  lemma StartKeysApart(pretokens: seq<seq<Byte>>)
    ensures DistinctBytes(BuildTable(Tally(pretokens)))
  {
    TallySpec(pretokens);
    BuildTableWellFormed(Tally(pretokens));
  }

  /** `train_bpe` of `bpe_zitong.py` on the pre-tokens of the text, each
      given by its UTF-8 bytes: count them (line 17), build the table
      (lines 44-47) and the pair table (lines 84-91), seed the vocabulary
      (lines 77-80), and run the loop. */
  function AsWrittenTrain(pretokens: seq<seq<Byte>>, specials: seq<Token>, vocabSize: int): Result<Trained> {
    var table := BuildTable(Tally(pretokens));
    Finish(specials, AsWrittenMerges(table, InitialPairFreq(table, map[]), vocabSize - (256 + |specials|)))
  }

  /** The result of `AsWrittenTrain` from the result of its loop: the vocabulary of
      lines 77-80 with each merge recorded in it (lines 105-106), or the
      error raised. */
  function Finish(specials: seq<Token>, zm: Result<seq<Pair>>): Result<Trained> {
    match zm
    case Success(ms) => Success(Trained(AddTokens(DirectInitVocab(specials), Joins(ms)), ms))
    case Failure(e) => Failure(e)
  }

  /** A successful run fills the vocabulary to `vocab_size` (or leaves a
      larger initial one alone), holding the bytes, the special tokens and
      the joined merges in order. */
  lemma AsWrittenTrainVocab(pretokens: seq<seq<Byte>>, specials: seq<Token>, vocabSize: int)
    ensures var r := AsWrittenTrain(pretokens, specials, vocabSize);
            && (r.Success? ==> r.value.vocab == AsVocab(ByteTokens() + specials + Joins(r.value.merges)))
            && (r.Success? ==> |r.value.vocab| == if vocabSize <= 256 + |specials| then 256 + |specials| else vocabSize)
  {
    var table := BuildTable(Tally(pretokens));
    var zm := AsWrittenMerges(table, InitialPairFreq(table, map[]), vocabSize - (256 + |specials|));
    DirectInitVocabView(specials);
    if zm.Success? {
      AddTokensAppends(ByteTokens() + specials, Joins(zm.value));
    }
  }

  /** The maintained table, read without its entries of count zero or
      below, is the recount of the lists. */
  function Prune(pf: PairCounts): (r: PairCounts)
    ensures forall q :: q in r <==> q in pf && pf[q] > 0
    ensures forall q :: q in r ==> r[q] == pf[q]
  {
    map q | q in pf && pf[q] > 0 :: pf[q]
  }

  /** A table holding the weighted counts, pruned, is exactly the recount
      of the expanded table. */
  lemma PruneIsRecount(table: seq<Entry>, pf: PairCounts)
    requires forall q :: Get(pf, q) == WCount(table, q)
    ensures Prune(pf) == Recount(Expand(table))
  {
    RecountExpand(table);
    forall q
      ensures q in Prune(pf) <==> q in Recount(Expand(table))
      ensures q in Prune(pf) ==> Prune(pf)[q] == Recount(Expand(table))[q]
    {
      assert Get(pf, q) == WCount(table, q);
      if q in Recount(Expand(table)) {
        assert Get(Recount(Expand(table)), q) == Recount(Expand(table))[q];
      }
    }
  }

  /** While the reference still has pairs to merge, the top pair of the
      maintained table, zero counts included, is the top pair of the
      recount. */
  lemma RoundTop(table: seq<Entry>, pf: PairCounts)
    requires forall q :: Get(pf, q) == WCount(table, q)
    requires |Recount(Expand(table))| > 0
    ensures |pf| > 0 && Top(pf) == Top(Recount(Expand(table)))
  {
    PruneIsRecount(table, pf);
    TopOfPositivePart(pf, Recount(Expand(table)));
  }

  /** One round of the incremental update keeps the maintained table equal
      to the weighted recount, and the rewritten table read as a list of
      lists is the merged list of lists. */
  lemma RoundKeeps(table: seq<Entry>, pf: PairCounts, top: Pair, a: Applied)
    requires forall q :: Get(pf, q) == WCount(table, q)
    requires a == ApplyMerge(table, top, pf)
    ensures forall q :: Get(a.counts, q) == WCount(a.table, q)
    ensures Expand(a.table) == MergeAll(Expand(table), top)
    ensures PositiveFreqs(table) ==> PositiveFreqs(a.table)
  {
    IncrementalMatchesRecount(table, top, pf);
  }

  /** The loop as written against the reference loop, from any state in
      which the maintained table holds the weighted counts. It reproduces
      the reference's merges exactly when the reference makes all `n`;
      otherwise it fails or runs past the point where the reference stops,
      and in every successful run the reference's merges come first. */
  lemma {:induction false} AsWrittenMergesAgree(table: seq<Entry>, pf: PairCounts, n: int)
    requires PositiveFreqs(table)
    requires forall q :: Get(pf, q) == WCount(table, q)
    ensures Agree(Merges(Expand(table), n), AsWrittenMerges(table, pf, n), n)
    decreases n
  {
    if n <= 0 {
      assert Merges(Expand(table), n) == [];
    } else if |Recount(Expand(table))| == 0 {
      assert Merges(Expand(table), n) == [];
    } else {
      RoundTop(table, pf);
      var top := Top(pf);
      var a := ApplyMerge(table, top, pf);
      RoundKeeps(table, pf, top, a);
      AsWrittenMergesAgree(a.table, a.counts, n - 1);
      AgreeStep(table, pf, n, top, a);
    }
  }

  /** One round of both loops: when the reference merges the top pair, so
      does the loop as written, and agreement on the rest gives agreement. */
  lemma AgreeStep(table: seq<Entry>, pf: PairCounts, n: int, top: Pair, a: Applied)
    requires n > 0 && |Recount(Expand(table))| > 0
    requires forall q :: Get(pf, q) == WCount(table, q)
    requires |pf| > 0 && top == Top(pf) && a == ApplyMerge(table, top, pf)
    requires Agree(Merges(Expand(a.table), n - 1), AsWrittenMerges(a.table, a.counts, n - 1), n - 1)
    ensures Agree(Merges(Expand(table), n), AsWrittenMerges(table, pf, n), n)
  {
    RoundTop(table, pf);
    RoundKeeps(table, pf, top, a);
    var z1 := AsWrittenMerges(a.table, a.counts, n - 1);
    assert Merges(Expand(table), n) == [top] + Merges(Expand(a.table), n - 1);
    assert AsWrittenMerges(table, pf, n) == if z1.Success? then Success([top] + z1.value) else z1;
    AgreeCons(top, Merges(Expand(a.table), n - 1), z1, n);
  }

  /** How the run as written relates to the reference run with at most `n`
      merges `ref`: it is the reference exactly when the reference makes
      all `n`; it fails only when the reference stops short; and a
      successful run starts with the reference's merges. */
  ghost predicate Agree(ref: seq<Pair>, z: Result<seq<Pair>>, n: int) {
    && (z == Success(ref) <==> |ref| >= n)
    && (z.Failure? ==> |ref| < n)
    && (z.Success? ==> |z.value| >= |ref| && z.value[..|ref|] == ref)
  }

  /** Agreement survives a common first merge. */
  lemma AgreeCons(top: Pair, ref: seq<Pair>, z: Result<seq<Pair>>, n: int)
    requires Agree(ref, z, n - 1)
    ensures Agree([top] + ref, if z.Success? then Success([top] + z.value) else z, n)
  {
    if z.Success? {
      assert ([top] + z.value)[..|ref| + 1] == [top] + z.value[..|ref|];
      assert ([top] + z.value)[1..] == z.value && ([top] + ref)[1..] == ref;
    }
  }

  /** The starting state `bpe_zitong.py` builds from the pre-tokens: a
      table with positive frequencies, and a pair table holding the
      weighted counts, which is the recount of the table unfolded. */
  lemma StartTable(pretokens: seq<seq<Byte>>, table: seq<Entry>)
    requires table == BuildTable(Tally(pretokens))
    ensures PositiveFreqs(table)
    ensures forall q :: Get(InitialPairFreq(table, map[]), q) == WCount(table, q)
    ensures InitialPairFreq(table, map[]) == Recount(Expand(table))
  {
    TallySpec(pretokens);
    BuildTableWellFormed(Tally(pretokens));
    InitialPairFreqSpec(table, map[]);
    InitialPairFreqIsRecount(table);
  }

  /** The table unfolded is a reordering of the corpus, so `bpe.py` makes
      the same merges on it as on the corpus itself. */
  lemma StartMerges(pretokens: seq<seq<Byte>>, table: seq<Entry>, n: int)
    requires table == BuildTable(Tally(pretokens))
    ensures Merges(ByteLists(pretokens), n) == Merges(Expand(table), n)
  {
    var counter := Tally(pretokens);
    TallySpec(pretokens);
    BuildTableExpand(counter);
    ByteListsPermutation(pretokens, Occurrences(counter));
    MergesPermutation(ByteLists(pretokens), Expand(table), n);
  }

  /** How a run of `bpe_zitong.py` relates to the reference result `ref`:
      the same vocabulary and merges exactly when the reference fills the
      vocabulary; otherwise it raises, or it adds merges after the
      reference's own. */
  ghost predicate TrainedAgree(ref: Trained, z: Result<Trained>, vocabSize: int) {
    && (z == Success(ref) <==> |ref.vocab| >= vocabSize)
    && (z.Failure? ==> |ref.vocab| < vocabSize)
    && (z.Success? ==> |z.value.merges| >= |ref.merges| && z.value.merges[..|ref.merges|] == ref.merges)
  }

  /** The trainer of `bpe_zitong.py` against the trainer of `bpe.py` on the
      same pre-tokens: the same vocabulary and merges exactly when the
      reference fills the vocabulary; otherwise it raises, or it adds merges
      after the reference's own. */
  lemma AsWrittenTrainAgrees(pretokens: seq<seq<Byte>>, specials: seq<Token>, vocabSize: int)
    ensures TrainedAgree(TrainBpe(pretokens, specials, vocabSize), AsWrittenTrain(pretokens, specials, vocabSize), vocabSize)
  {
    var table := BuildTable(Tally(pretokens));
    var n := vocabSize - (256 + |specials|);
    var ms := Merges(ByteLists(pretokens), n);
    var zm := AsWrittenMerges(table, InitialPairFreq(table, map[]), n);
    assert TrainBpe(pretokens, specials, vocabSize) == Record(specials, ms);
    assert AsWrittenTrain(pretokens, specials, vocabSize) == Finish(specials, zm);
    AgreeFromStart(pretokens, specials, vocabSize, table, ms, zm);
  }

  /** The agreement of the two trainers, once both are unfolded to their
      loops. */
  lemma AgreeFromStart(pretokens: seq<seq<Byte>>, specials: seq<Token>, vocabSize: int,
                       table: seq<Entry>, ms: seq<Pair>, zm: Result<seq<Pair>>)
    requires table == BuildTable(Tally(pretokens))
    requires ms == Merges(ByteLists(pretokens), vocabSize - (256 + |specials|))
    requires zm == AsWrittenMerges(table, InitialPairFreq(table, map[]), vocabSize - (256 + |specials|))
    ensures TrainedAgree(Record(specials, ms), Finish(specials, zm), vocabSize)
  {
    LoopsAgree(pretokens, table, vocabSize - (256 + |specials|));
    AgreeTrained(specials, vocabSize, ms, zm);
  }

  /** From the pre-tokens, the loop as written agrees with the reference
      loop run on the pre-tokens themselves. */
  lemma LoopsAgree(pretokens: seq<seq<Byte>>, table: seq<Entry>, n: int)
    requires table == BuildTable(Tally(pretokens))
    ensures Agree(Merges(ByteLists(pretokens), n), AsWrittenMerges(table, InitialPairFreq(table, map[]), n), n)
  {
    StartTable(pretokens, table);
    StartMerges(pretokens, table, n);
    AsWrittenMergesAgree(table, InitialPairFreq(table, map[]), n);
  }

  /** Agreement on the merges is agreement on the trained results built
      from the same starting vocabulary. */
  lemma AgreeTrained(specials: seq<Token>, vocabSize: int, ms: seq<Pair>, zm: Result<seq<Pair>>)
    requires Agree(ms, zm, vocabSize - (256 + |specials|))
    ensures TrainedAgree(Record(specials, ms), Finish(specials, zm), vocabSize)
  {
    SameStart(specials);
  }

  /** One round of the corrected loop: from a pruned table equal to the
      recount, merging its top pair and pruning again gives the recount of
      the merged table, and the reference's remaining merges are that pair
      followed by those of the merged table. */
  lemma CorrectedRound(table: seq<Entry>, pf: PairCounts, top: Pair, a: Applied, merges: seq<Pair>, n: int)
    requires n > 0
    requires PositiveFreqs(table)
    requires pf == Recount(Expand(table)) && |pf| > 0
    requires top == Top(pf) && a == ApplyMerge(table, top, pf)
    ensures PositiveFreqs(a.table)
    ensures Prune(a.counts) == Recount(Expand(a.table))
    ensures merges + Merges(Expand(table), n) == (merges + [top]) + Merges(Expand(a.table), n - 1)
  {
    RecountExpand(table);
    RoundTop(table, pf);
    RoundKeeps(table, pf, top, a);
    PruneIsRecount(a.table, a.counts);
    assert Merges(Expand(table), n) == [top] + Merges(Expand(a.table), n - 1);
  }

  /** Recording a merge in the vocabulary view appends its joined token. */
  lemma RecordMerge(tokens0: seq<Token>, merges: seq<Pair>, top: Pair)
    requires |tokens0| > 0
    ensures Contiguous(AsVocab(tokens0 + Joins(merges))) && |AsVocab(tokens0 + Joins(merges))| == |tokens0| + |merges|
    ensures AddToken(AsVocab(tokens0 + Joins(merges)), top.Joined()) == AsVocab(tokens0 + Joins(merges + [top]))
  {
    AddTokenAppends(tokens0 + Joins(merges), top.Joined());
    assert tokens0 + Joins(merges) + [top.Joined()] == tokens0 + Joins(merges + [top]);
  }

  /** The corrected loop: while the vocabulary is not full and some pair is
      left, merge the top pair, record it in the vocabulary, patch the pair
      table and drop the pairs whose count fell to zero. From a table equal
      to the recount it makes exactly the merges the reference loop makes,
      and its vocabulary gains their joined tokens in order. The keys stay
      pairwise distinct all along, so the table written as a sequence stands
      for the dict `new_pretoken_freq` of line 131: no entry is overwritten. */
  method CorrectedLoop(table0: seq<Entry>, pf0: PairCounts, vocab0: Vocab, ghost tokens0: seq<Token>, vocabSize: int)
    returns (vocab: Vocab, merges: seq<Pair>)
    requires |tokens0| > 0 && vocab0 == AsVocab(tokens0)
    requires PositiveFreqs(table0) && DistinctBytes(table0)
    requires pf0 == Recount(Expand(table0))
    ensures merges == Merges(Expand(table0), vocabSize - |tokens0|)
    ensures vocab == AsVocab(tokens0 + Joins(merges))
  {
    AsVocabSize(tokens0);
    var table, pf := table0, pf0;
    vocab, merges := vocab0, [];
    ghost var goal := Merges(Expand(table0), vocabSize - |tokens0|);
    ghost var n := vocabSize - |tokens0|;
    assert tokens0 + Joins(merges) == tokens0;
    assert merges + goal == goal;
    assert OnTrack(merges, table, n, goal);
    while |vocab| < vocabSize
      invariant vocab == AsVocab(tokens0 + Joins(merges))
      invariant |vocab| == |tokens0| + |merges|
      invariant PositiveFreqs(table) && DistinctBytes(table)
      invariant pf == Recount(Expand(table))
      invariant n == vocabSize - |vocab|
      invariant OnTrack(merges, table, n, goal)
      decreases n
    {
      if |pf| == 0 {
        break;
      }
      table, pf, vocab, merges := CorrectedStep(table, pf, vocab, merges, tokens0, n);
      n := n - 1;
    }
    if |vocab| < vocabSize {
      assert Recount(Expand(table)) == map[];
    }
    assert Merges(Expand(table), n) == [];
  }

  /** The merges made so far, followed by those the reference loop makes
      from the current table in the rounds left, are the reference's. */
  ghost predicate OnTrack(merges: seq<Pair>, table: seq<Entry>, n: int, goal: seq<Pair>) {
    merges + Merges(Expand(table), n) == goal
  }

  /** One round of the corrected loop: merge the top pair, record it in the
      vocabulary, patch the pair table and drop the pairs whose count fell
      to zero. The table stays equal to the recount, and the merges made so
      far followed by the reference's remaining ones do not change. */
  method CorrectedStep(table: seq<Entry>, pf: PairCounts, vocab: Vocab, merges: seq<Pair>,
                       ghost tokens0: seq<Token>, ghost n: int)
    returns (table1: seq<Entry>, pf1: PairCounts, vocab1: Vocab, merges1: seq<Pair>)
    requires |tokens0| > 0 && vocab == AsVocab(tokens0 + Joins(merges))
    requires PositiveFreqs(table) && pf == Recount(Expand(table)) && |pf| > 0 && n > 0
    requires DistinctBytes(table)
    ensures merges1 == merges + [Top(pf)]
    ensures vocab1 == AsVocab(tokens0 + Joins(merges1))
    ensures |vocab1| == |vocab| + 1 && |vocab1| == |tokens0| + |merges1|
    ensures PositiveFreqs(table1) && pf1 == Recount(Expand(table1))
    ensures DistinctBytes(table1)
    ensures merges + Merges(Expand(table), n) == merges1 + Merges(Expand(table1), n - 1)
  {
    var top := Top(pf);
    var a := ApplyMerge(table, top, pf);
    CorrectedRound(table, pf, top, a, merges, n);
    ApplyMergeSpec(table, top, pf);
    MergeTableKeepsKeysApart(table, top);
    RecordMerge(tokens0, merges, top);
    vocab1 := AddToken(vocab, top.Joined());
    table1, pf1, merges1 := a.table, Prune(a.counts), merges + [top];
  }

  /** The trainer of `bpe_zitong.py` with the two corrections it needs: it
      stops when no pair is left, as `bpe.py` does in lines 100-103, and it
      drops every pair whose count falls to zero, so that a pair occurring
      nowhere is never selected. It learns exactly what `bpe.py` learns
      from the same pre-tokens. */
  method Train(pretokens: seq<seq<Byte>>, specials: seq<Token>, vocabSize: int) returns (r: Trained)
    ensures r == TrainBpe(pretokens, specials, vocabSize)
  {
    var table := BuildTable(Tally(pretokens));
    var pf := InitialPairFreq(table, map[]);
    ghost var tokens0 := ByteTokens() + specials;
    var vocab0 := DirectInitVocab(specials);
    TrainStart(pretokens, specials, table, pf, vocab0);
    var vocab, merges := CorrectedLoop(table, pf, vocab0, tokens0, vocabSize);
    r := Trained(vocab, merges);
    IsTrainBpe(pretokens, specials, vocabSize, table, tokens0, r);
  }

  /** The state `train_bpe` of `bpe_zitong.py` starts its loop from: the
      table of the pre-tokens with positive frequencies and keys apart, its
      pair table equal to the recount, and the vocabulary of lines 77-80. */
  lemma TrainStart(pretokens: seq<seq<Byte>>, specials: seq<Token>, table: seq<Entry>, pf: PairCounts, vocab0: Vocab)
    requires table == BuildTable(Tally(pretokens)) && pf == InitialPairFreq(table, map[])
    requires vocab0 == DirectInitVocab(specials)
    ensures PositiveFreqs(table) && DistinctBytes(table) && pf == Recount(Expand(table))
    ensures vocab0 == AsVocab(ByteTokens() + specials)
  {
    StartTable(pretokens, table);
    StartKeysApart(pretokens);
    DirectInitVocabView(specials);
  }

  /** A result with the reference's merges, made from the table of the
      pre-tokens, and the vocabulary they give, is what `train_bpe` of
      `bpe.py` returns. */
  lemma IsTrainBpe(pretokens: seq<seq<Byte>>, specials: seq<Token>, vocabSize: int, table: seq<Entry>,
                   tokens0: seq<Token>, r: Trained)
    requires table == BuildTable(Tally(pretokens)) && tokens0 == ByteTokens() + specials
    requires r.merges == Merges(Expand(table), vocabSize - |tokens0|)
    requires r.vocab == AsVocab(tokens0 + Joins(r.merges))
    ensures r == TrainBpe(pretokens, specials, vocabSize)
  {
    StartMerges(pretokens, table, vocabSize - (256 + |specials|));
    TrainBpeVocab(pretokens, specials, vocabSize);
  }
}
