/** Two inputs on which the loop of `bpe_zitong.py` as written parts from
    `bpe.py`, each the smallest corpus showing it: a corpus without any
    adjacent pair, and a corpus whose only pair disappears after one merge.
    The corrected trainer `Incremental.Train` agrees with `bpe.py` on both,
    as on every corpus. */
module Findings {
  import opened Bytes
  import opened Selection
  import opened Counting
  import opened Merging
  import opened Update
  import opened Vocabulary
  import opened Pretokens
  import opened Reference
  import opened Incremental

  /** A corpus of one pre-token becomes a table of one entry with
      frequency 1. */
  lemma OnePretokenTable(pt: seq<Byte>)
    ensures BuildTable(Tally([pt])) == [Entry(SplitBytes(pt), 1)]
  {
    assert [pt][..0] == [];
  }

  /** A single byte has no adjacent pair: the pair table of lines 84-91 and
      the recount of `bpe.py` are both empty. */
  lemma SingleByteNoPairs(b: Byte)
    ensures InitialPairFreq([Entry([[b]], 1)], map[]) == map[]
    ensures Recount(ByteLists([[b]])) == map[]
  {
    var k: Key := [[b]];
    assert SplitBytes([b]) == k;
    assert ByteLists([[b]]) == [k];
    var pf := InitialPairFreq([Entry(k, 1)], map[]);
    assert [Entry(k, 1)][1..] == [];
    assert InitialPairFreq([], AddKeyPairs(k, 0, 1, map[])) == AddKeyPairs(k, 0, 1, map[]);
    assert pf == AddKeyPairs(k, 0, 1, map[]);
    forall q
      ensures q !in pf && q !in Recount([k])
    {
      AddKeyPairsAt(k, 0, 1, map[], q);
      assert k[0..] == k;
      RecountSpec([k]);
      assert OccAll([k], q) == Occ(k, q) + OccAll([k][1..], q);
    }
  }

  /** Two bytes form exactly one pair, counted once by lines 84-91 and by
      the recount of `bpe.py`. */
  lemma TwoBytesOnePair(x: Byte, y: Byte)
    ensures InitialPairFreq([Entry([[x], [y]], 1)], map[]) == map[Pair([x], [y]) := 1]
    ensures Recount(ByteLists([[x, y]])) == map[Pair([x], [y]) := 1]
  {
    var k: Key := [[x], [y]];
    var p := Pair([x], [y]);
    assert SplitBytes([x, y]) == k;
    assert ByteLists([[x, y]]) == [k];
    var pf := InitialPairFreq([Entry(k, 1)], map[]);
    assert [Entry(k, 1)][1..] == [];
    assert InitialPairFreq([], AddKeyPairs(k, 0, 1, map[])) == AddKeyPairs(k, 0, 1, map[]);
    assert pf == AddKeyPairs(k, 0, 1, map[]);
    forall q
      ensures (q in pf <==> q == p) && Get(pf, q) == (if q == p then 1 else 0)
      ensures (q in Recount([k]) <==> q == p) && Get(Recount([k]), q) == (if q == p then 1 else 0)
    {
      AddKeyPairsAt(k, 0, 1, map[], q);
      assert k[0..] == k;
      assert Occ(k, q) == if q == p then 1 else 0 by {
        assert k[1..] == [[y]];
      }
      RecountSpec([k]);
      assert OccAll([k], q) == Occ(k, q) + OccAll([k][1..], q);
    }
  }

  /** A one-byte pre-token is left alone by every merge, and the recount of
      the merged corpus is empty again: `bpe.py` stops with no merge. */
  lemma NoPairsNoMerges(b: Byte, n: int)
    ensures Merges(ByteLists([[b]]), n) == []
  {
    SingleByteNoPairs(b);
  }

  /** Finding 1. On a corpus without adjacent pairs, such as one single
      byte, and a vocabulary not yet full, `max` at line 99 of
      `bpe_zitong.py` runs over an empty `pair_freq` and raises, while
      `bpe.py` leaves the loop at lines 100-103 with no merge. */
  lemma EmptyPairTableRaises(b: Byte, specials: seq<Token>, vocabSize: int)
    requires vocabSize > 256 + |specials|
    ensures AsWrittenTrain([[b]], specials, vocabSize) == Failure(EmptyPairTable)
    ensures TrainBpe([[b]], specials, vocabSize).merges == []
  {
    OnePretokenTable([b]);
    assert SplitBytes([b]) == [[b]];
    SingleByteNoPairs(b);
    NoPairsNoMerges(b, vocabSize - (256 + |specials|));
  }

  /** After merging the only pair of `[x, y]`, the pair table as written
      still holds that pair, with count 0. */
  lemma StalePairKept(x: Byte, y: Byte)
    ensures var p := Pair([x], [y]);
            ApplyMerge([Entry([[x], [y]], 1)], p, map[p := 1]).counts == map[p := 0]
  {
    var p := Pair([x], [y]);
    var k: Key := [[x], [y]];
    var s := UpdateByteTuple(k, 0);
    assert s.prefix == [] && s.suffix == [] && |s.merged| == 1;
    assert SiteUpdate(s, p, 1, map[p := 1]) == map[p := 0];
    assert RewriteFrom(k, 0, p, 1, map[p := 1]) == RewriteFrom(s.merged, 1, p, 1, map[p := 0]);
    assert RewriteFrom(s.merged, 1, p, 1, map[p := 0]).counts == map[p := 0];
    assert [Entry(k, 1)][1..] == [];
  }

  /** `bpe.py` on the pre-token `[x, y]` makes its one merge and stops. */
  lemma ReferenceMergesOnce(x: Byte, y: Byte, n: int)
    requires n >= 1
    ensures Merges(ByteLists([[x, y]]), n) == [Pair([x], [y])]
  {
    var p := Pair([x], [y]);
    var k: Key := [[x], [y]];
    TwoBytesOnePair(x, y);
    assert SplitBytes([x, y]) == k;
    assert ByteLists([[x, y]]) == [k];
    var top := Top(Recount(ByteLists([[x, y]])));
    assert top == p;
    var merged := MergeAll(ByteLists([[x, y]]), p);
    assert Merge(k, p) == [[x, y]] by {
      assert k[2..] == [];
      assert Merge([], p) == [];
      assert p.Joined() == [x, y];
    }
    assert Recount(merged) == map[] by {
      assert merged == [[[x, y]]];
      forall q
        ensures q !in Recount(merged)
      {
        RecountSpec(merged);
        assert OccAll(merged, q) == Occ([[x, y]], q) + OccAll(merged[1..], q);
      }
    }
  }

  /** One round of the loop as written, once the rounds after it are
      known to succeed. */
  lemma AsWrittenRound(table: seq<Entry>, pf: PairCounts, n: int, top: Pair, a: Applied, ms: seq<Pair>)
    requires n > 0 && |pf| > 0 && top == Top(pf) && a == ApplyMerge(table, top, pf)
    requires AsWrittenMerges(a.table, a.counts, n - 1) == Success(ms)
    ensures AsWrittenMerges(table, pf, n) == Success([top] + ms)
  {
  }

  /** The loop as written, from the table of `[x, y]`, with two rounds
      left: it merges `(x, y)` and then merges it again. */
  lemma StaleLoop(x: Byte, y: Byte)
    ensures var p := Pair([x], [y]);
            AsWrittenMerges([Entry([[x], [y]], 1)], map[p := 1], 2) == Success([p, p])
  {
    var p := Pair([x], [y]);
    var table := [Entry([[x], [y]], 1)];
    var pf := map[p := 1];
    assert Top(pf) == p;
    var a := ApplyMerge(table, p, pf);
    StalePairKept(x, y);
    assert |a.counts| == 1;
    assert Top(a.counts) == p;
    var a2 := ApplyMerge(a.table, p, a.counts);
    AsWrittenRound(a.table, a.counts, 1, p, a2, []);
    assert [p] + [] == [p];
    AsWrittenRound(table, pf, 2, p, a, [p]);
    assert [p] + [p] == [p, p];
  }

  /** Finding 2. On the pre-token `[x, y]` with room for two merges, the
      loop of `bpe_zitong.py` merges `(x, y)`, leaves it in `pair_freq`
      with count 0, and picks it again as the only candidate, so the pair
      is merged twice and its token takes two ids; `bpe.py` merges it once
      and stops. */
  lemma StaleZeroPairReselected(x: Byte, y: Byte, specials: seq<Token>)
    ensures var p := Pair([x], [y]);
            var z := AsWrittenTrain([[x, y]], specials, 256 + |specials| + 2);
            && z.Success? && z.value.merges == [p, p]
            && z.value.vocab[256 + |specials|] == z.value.vocab[257 + |specials|] == [x, y]
    ensures TrainBpe([[x, y]], specials, 256 + |specials| + 2).merges == [Pair([x], [y])]
  {
    StaleTrainAsWritten(x, y, specials);
    assert TrainBpe([[x, y]], specials, 256 + |specials| + 2).merges == Merges(ByteLists([[x, y]]), 2);
    ReferenceMergesOnce(x, y, 2);
  }

  /** The as-written half of finding 2: `train_bpe` of `bpe_zitong.py` on
      `[x, y]` with room for two merges records `(x, y)` twice. */
  lemma StaleTrainAsWritten(x: Byte, y: Byte, specials: seq<Token>)
    ensures var p := Pair([x], [y]);
            var z := AsWrittenTrain([[x, y]], specials, 256 + |specials| + 2);
            && z.Success? && z.value.merges == [p, p]
            && z.value.vocab[256 + |specials|] == z.value.vocab[257 + |specials|] == [x, y]
  {
    var p := Pair([x], [y]);
    OnePretokenTable([x, y]);
    assert SplitBytes([x, y]) == [[x], [y]];
    TwoBytesOnePair(x, y);
    StaleLoop(x, y);
    AsWrittenTrainVocab([[x, y]], specials, 256 + |specials| + 2);
    var tokens := ByteTokens() + specials + Joins([p, p]);
    assert tokens[256 + |specials|] == p.Joined() == tokens[257 + |specials|];
  }
}
