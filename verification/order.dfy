/** The reference trainer depends on the corpus only through the multiset
    of its pre-tokens: reordering the pre-tokens changes neither the counts,
    nor the merges, nor the vocabulary. This is what lets a trainer that
    counts pre-tokens first, as `bpe_zitong.py` does, be compared with it. */
module CorpusOrder {
  import opened Bytes
  import opened Selection
  import opened Counting
  import opened Merging
  import opened Pretokens
  import opened Reference

  /** A sequence with the same elements as one with a first element holds
      that element somewhere, and without it holds the rest. */
  lemma PermutationSplit<T>(a: seq<T>, b: seq<T>) returns (j: nat)
    requires multiset(a) == multiset(b) && |a| > 0
    ensures j < |b| && b[j] == a[0]
    ensures b == b[..j] + [b[j]] + b[j + 1..]
    ensures multiset(a[1..]) == multiset(b[..j] + b[j + 1..])
  {
    assert a == [a[0]] + a[1..];
    assert a[0] in multiset(b);
    j :| 0 <= j < |b| && b[j] == a[0];
    assert b == b[..j] + [b[j]] + b[j + 1..];
    var rest := b[..j] + b[j + 1..];
    assert multiset(b) == multiset(rest) + multiset{a[0]} by {
      assert multiset(b) == multiset(b[..j]) + multiset{b[j]} + multiset(b[j + 1..]);
    }
    assert multiset(a) == multiset(a[1..]) + multiset{a[0]};
    forall x
      ensures multiset(a[1..])[x] == multiset(rest)[x]
    {
      assert multiset(a)[x] == multiset(b)[x];
    }
  }

  /** Occurrence counts do not depend on the order of the lists. */
  lemma {:induction false} OccAllPermutation(a: seq<Key>, b: seq<Key>, q: Pair)
    requires multiset(a) == multiset(b)
    ensures OccAll(a, q) == OccAll(b, q)
    decreases |a|
  {
    if |a| == 0 {
      assert |b| == |multiset(b)| == 0;
    } else {
      var j := PermutationSplit(a, b);
      var rest := b[..j] + b[j + 1..];
      OccAllPermutation(a[1..], rest, q);
      OccAllConcat(b[..j], [b[j]] + b[j + 1..], q);
      OccAllConcat([b[j]], b[j + 1..], q);
      OccAllConcat(b[..j], b[j + 1..], q);
      assert b[..j] + [b[j]] + b[j + 1..] == b[..j] + ([b[j]] + b[j + 1..]);
    }
  }

  /** Neither does the recount. */
  lemma RecountPermutation(a: seq<Key>, b: seq<Key>)
    requires multiset(a) == multiset(b)
    ensures Recount(a) == Recount(b)
  {
    RecountSpec(a);
    RecountSpec(b);
    forall q
      ensures OccAll(a, q) == OccAll(b, q)
    {
      OccAllPermutation(a, b, q);
    }
    assert forall q :: q in Recount(a) ==> Recount(a)[q] == Get(Recount(a), q);
    assert forall q :: q in Recount(b) ==> Recount(b)[q] == Get(Recount(b), q);
  }

  /** Merging each list of a reordered corpus gives a reordering of the
      merged corpus. */
  lemma {:induction false} MergeAllPermutation(a: seq<Key>, b: seq<Key>, p: Pair)
    requires multiset(a) == multiset(b)
    ensures multiset(MergeAll(a, p)) == multiset(MergeAll(b, p))
    decreases |a|
  {
    if |a| == 0 {
      assert |b| == |multiset(b)| == 0;
    } else {
      var j := PermutationSplit(a, b);
      var rest := b[..j] + b[j + 1..];
      MergeAllPermutation(a[1..], rest, p);
      assert MergeAll(a, p) == [Merge(a[0], p)] + MergeAll(a[1..], p);
      assert MergeAll(b, p) == MergeAll(b[..j], p) + [Merge(b[j], p)] + MergeAll(b[j + 1..], p);
      assert MergeAll(rest, p) == MergeAll(b[..j], p) + MergeAll(b[j + 1..], p);
    }
  }

  /** Splitting the pre-tokens of a reordered corpus gives a reordering of
      the split corpus. */
  lemma {:induction false} ByteListsPermutation(a: seq<seq<Byte>>, b: seq<seq<Byte>>)
    requires multiset(a) == multiset(b)
    ensures multiset(ByteLists(a)) == multiset(ByteLists(b))
    decreases |a|
  {
    if |a| == 0 {
      assert |b| == |multiset(b)| == 0;
    } else {
      var j := PermutationSplit(a, b);
      var rest := b[..j] + b[j + 1..];
      ByteListsPermutation(a[1..], rest);
      assert ByteLists(a) == [SplitBytes(a[0])] + ByteLists(a[1..]);
      assert ByteLists(b) == ByteLists(b[..j]) + [SplitBytes(b[j])] + ByteLists(b[j + 1..]);
      assert ByteLists(rest) == ByteLists(b[..j]) + ByteLists(b[j + 1..]);
    }
  }

  /** The training loop makes the same merges on any reordering of the
      lists. */
  lemma {:induction false} MergesPermutation(a: seq<Key>, b: seq<Key>, n: int)
    requires multiset(a) == multiset(b)
    ensures Merges(a, n) == Merges(b, n)
    decreases n
  {
    if n > 0 {
      var counts := Recount(a);
      assert counts == Recount(b) by {
        RecountPermutation(a, b);
      }
      if |counts| > 0 {
        var top := Top(counts);
        MergeAllPermutation(a, b, top);
        MergesPermutation(MergeAll(a, top), MergeAll(b, top), n - 1);
      }
    }
  }

  /** `train_bpe` learns the same vocabulary and merges from any two corpora
      with the same pre-tokens, counted with multiplicity. */
  lemma TrainBpeOrderFree(a: seq<seq<Byte>>, b: seq<seq<Byte>>, specials: seq<Token>, vocabSize: int)
    requires multiset(a) == multiset(b)
    ensures TrainBpe(a, specials, vocabSize) == TrainBpe(b, specials, vocabSize)
  {
    var n := vocabSize - (256 + |specials|);
    assert Merges(ByteLists(a), n) == Merges(ByteLists(b), n) by {
      ByteListsPermutation(a, b);
      MergesPermutation(ByteLists(a), ByteLists(b), n);
    }
    SameMergesSameResult(a, b, specials, vocabSize);
  }

  /** Two corpora on which the loop makes the same merges train to the same
      result. */
  lemma SameMergesSameResult(a: seq<seq<Byte>>, b: seq<seq<Byte>>, specials: seq<Token>, vocabSize: int)
    requires Merges(ByteLists(a), vocabSize - (256 + |specials|)) == Merges(ByteLists(b), vocabSize - (256 + |specials|))
    ensures TrainBpe(a, specials, vocabSize) == TrainBpe(b, specials, vocabSize)
  {
  }
}
