/** `train_bpe` of `bpe.py`, the reference trainer: recount every adjacent
    pair of the corpus, pick the most frequent one (ties towards the
    greatest pair), merge it everywhere, record it, and repeat until the
    vocabulary is full or no pair is left. */
module Reference {
  import opened Bytes
  import opened Selection
  import opened Counting
  import opened Merging
  import opened Vocabulary
  import opened Pretokens

  /** The result of training: the vocabulary and the merges in the order
      they were made. */
  datatype Trained = Trained(vocab: Vocab, merges: seq<Pair>)

  /** The merges chosen by at most `n` rounds of the loop in lines 96-124,
      starting from the given lists. Each round either stops because no
      pair is left (lines 98-103) or picks the top pair (line 107), merges
      it everywhere (line 115) and records it (line 124). The vocabulary is
      written by the loop but never read by it, so it is built from these
      merges by `Record`. */
  function Merges(lists: seq<Key>, n: int): (ms: seq<Pair>)
    ensures |ms| <= if n < 0 then 0 else n
    decreases n
  {
    if n <= 0 then []
    else
      var counts := Recount(lists);
      if |counts| == 0 then []
      else
        var top := Top(counts);
        [top] + Merges(MergeAll(lists, top), n - 1)
  }

  /** The result of training with the given special tokens and merges:
      `init_vocab` (lines 13-24), then each merge's joined token under
      `max(vocab.keys()) + 1` (lines 118-119), and the merges. */
  function Record(specials: seq<Token>, ms: seq<Pair>): Trained {
    Trained(AddTokens(InitVocab(specials), Joins(ms)), ms)
  }

  /** `train_bpe(text, special_tokens, vocab_size)` on the pre-tokens of the
      text, each given by its UTF-8 bytes: seed the vocabulary, make at most
      `vocab_size - initial_vocab_size` merges (lines 87-89), recording each
      merged token in the vocabulary. The seeded vocabulary holds
      `256 + len(special_tokens)` entries (`InitVocabView`), which is the
      count written here. */
  function TrainBpe(pretokens: seq<seq<Byte>>, specials: seq<Token>, vocabSize: int): Trained {
    Record(specials, Merges(ByteLists(pretokens), vocabSize - (256 + |specials|)))
  }

  /** The trained vocabulary holds the 256 single bytes, then the special
      tokens, then the joined token of each merge, in order, under ids
      `0, 1, 2, ...`, and there are at most
      `vocab_size - 256 - len(special_tokens)` merges. */
  lemma TrainBpeVocab(pretokens: seq<seq<Byte>>, specials: seq<Token>, vocabSize: int)
    ensures var r := TrainBpe(pretokens, specials, vocabSize);
            && r.vocab == AsVocab(ByteTokens() + specials + Joins(r.merges))
            && Contiguous(r.vocab) && |r.vocab| == 256 + |specials| + |r.merges|
            && |r.merges| <= if vocabSize < 256 + |specials| then 0 else vocabSize - 256 - |specials|
  {
    InitVocabView(specials);
    AddTokensAppends(ByteTokens() + specials, Joins(Merges(ByteLists(pretokens), vocabSize - (256 + |specials|))));
  }

  /** The lists after making the given merges in order. */
  function Replay(lists: seq<Key>, ms: seq<Pair>): seq<Key>
    decreases |ms|
  {
    if |ms| == 0 then lists else Replay(MergeAll(lists, ms[0]), ms[1..])
  }

  /** Replaying a first merge and then the rest. */
  lemma ReplayCons(lists: seq<Key>, top: Pair, ms: seq<Pair>)
    ensures Replay(lists, [top] + ms) == Replay(MergeAll(lists, top), ms)
  {
    assert ([top] + ms)[1..] == ms;
  }

  /** Each merge of `ms` is the top pair of the recount of `lists` after
      the merges before it, so each occurs at the point it is made. */
  ghost predicate GreedyFrom(lists: seq<Key>, ms: seq<Pair>) {
    forall j :: 0 <= j < |ms| ==>
      |Recount(Replay(lists, ms[..j]))| > 0 && ms[j] == Top(Recount(Replay(lists, ms[..j])))
  }

  /** A top pair followed by a greedy sequence on the merged lists is greedy. */
  lemma GreedyCons(lists: seq<Key>, top: Pair, rest: seq<Pair>)
    requires |Recount(lists)| > 0 && top == Top(Recount(lists))
    requires GreedyFrom(MergeAll(lists, top), rest)
    ensures GreedyFrom(lists, [top] + rest)
  {
    var ms := [top] + rest;
    forall j | 0 <= j < |ms|
      ensures |Recount(Replay(lists, ms[..j]))| > 0 && ms[j] == Top(Recount(Replay(lists, ms[..j])))
    {
      if j == 0 {
        assert ms[..j] == [];
      } else {
        assert ms[..j] == [top] + rest[..j - 1];
        ReplayCons(lists, top, rest[..j - 1]);
        assert ms[j] == rest[j - 1];
      }
    }
  }

  /** The greedy characterisation of the loop: every merge it makes is the
      top pair of the recount of the lists after the merges made before it,
      so in particular it occurs there. */
  lemma {:induction false} MergesGreedy(lists: seq<Key>, n: int)
    ensures GreedyFrom(lists, Merges(lists, n))
    decreases n
  {
    if n > 0 && |Recount(lists)| > 0 {
      var top := Top(Recount(lists));
      var rest := Merges(MergeAll(lists, top), n - 1);
      assert Merges(lists, n) == [top] + rest;
      MergesGreedy(MergeAll(lists, top), n - 1);
      GreedyCons(lists, top, rest);
    }
  }

  /** The loop stops short of `n` merges only when the lists it has reached
      have no adjacent pair left. */
  lemma {:induction false} MergesStopsWhenNoPairs(lists: seq<Key>, n: int)
    ensures |Merges(lists, n)| < n ==> Recount(Replay(lists, Merges(lists, n))) == map[]
    decreases n
  {
    if n > 0 && |Recount(lists)| > 0 {
      var top := Top(Recount(lists));
      var rest := Merges(MergeAll(lists, top), n - 1);
      MergesStopsWhenNoPairs(MergeAll(lists, top), n - 1);
      ReplayCons(lists, top, rest);
    }
  }

  /** The tail of a greedy sequence is greedy on the lists its first
      merge leaves. */
  lemma GreedyTail(lists: seq<Key>, ms: seq<Pair>)
    requires |ms| > 0 && GreedyFrom(lists, ms)
    ensures |Recount(lists)| > 0 && ms[0] == Top(Recount(lists))
    ensures GreedyFrom(MergeAll(lists, ms[0]), ms[1..])
  {
    var top := ms[0];
    var rest := ms[1..];
    assert ms[..0] == [];
    forall j | 0 <= j < |rest|
      ensures |Recount(Replay(MergeAll(lists, top), rest[..j]))| > 0
      ensures rest[j] == Top(Recount(Replay(MergeAll(lists, top), rest[..j])))
    {
      assert ms[..j + 1] == [top] + rest[..j];
      ReplayCons(lists, top, rest[..j]);
      assert ms[j + 1] == rest[j];
    }
  }

  /** Conversely, the greedy choice pins the merges down: a greedy sequence
      of at most `n` merges that is either `n` long or leaves no pair is
      exactly what the loop makes. */
  lemma {:induction false} MergesUnique(lists: seq<Key>, n: int, ms: seq<Pair>)
    requires GreedyFrom(lists, ms)
    requires |ms| <= if n < 0 then 0 else n
    requires |ms| < n ==> Recount(Replay(lists, ms)) == map[]
    ensures ms == Merges(lists, n)
    decreases n
  {
    if |ms| > 0 {
      var top := ms[0];
      var rest := ms[1..];
      GreedyTail(lists, ms);
      ReplayCons(lists, top, rest);
      assert ms == [top] + rest;
      MergesUnique(MergeAll(lists, top), n - 1, rest);
    } else if n > 0 {
      assert Recount(lists) == map[];
    }
  }
}
