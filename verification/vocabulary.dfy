/** The vocabulary: a map from token ids to tokens, seeded with the 256
    single bytes and the special tokens, and grown by one id per merge.
    Both trainers only ever add a token under the id just above the largest
    one in use, so the ids stay `0 .. n - 1`; `AsVocab` is that view of a
    vocabulary, as the sequence of its tokens in id order. */
module Vocabulary {
  import opened Bytes

  /** A Python `dict[int, bytes]` from token id to token. */
  type Vocab = map<int, Token>

  /** The ids are exactly `0 .. |v| - 1`. */
  ghost predicate Contiguous(v: Vocab) {
    forall i :: i in v <==> 0 <= i < |v|
  }

  /** The vocabulary holding `tokens[i]` under id `i`. */
  function AsVocab(tokens: seq<Token>): (v: Vocab)
    ensures forall i :: i in v <==> 0 <= i < |tokens|
    ensures forall i :: 0 <= i < |tokens| ==> v[i] == tokens[i]
  {
    map i | 0 <= i < |tokens| :: tokens[i]
  }

  /** Writing a token under the next id appends it. */
  lemma WriteAppends(tokens: seq<Token>, token: Token)
    ensures AsVocab(tokens)[|tokens| := token] == AsVocab(tokens + [token])
  {
    var l := AsVocab(tokens)[|tokens| := token];
    var r := AsVocab(tokens + [token]);
    forall i
      ensures i in l <==> i in r
      ensures i in l ==> l[i] == r[i]
    {
    }
  }

  /** The view of `n` tokens holds `n` ids, with no gap. */
  lemma {:induction false} AsVocabSize(tokens: seq<Token>)
    ensures |AsVocab(tokens)| == |tokens|
    ensures Contiguous(AsVocab(tokens))
    decreases |tokens|
  {
    if |tokens| > 0 {
      var init := tokens[..|tokens| - 1];
      AsVocabSize(init);
      WriteAppends(init, tokens[|init|]);
      assert init + [tokens[|init|]] == tokens;
      assert |init| !in AsVocab(init);
    }
  }

  /** `max(vocab.keys())` of a non-empty contiguous vocabulary: the largest
      id in use, which is `|v| - 1`. */
  function MaxId(v: Vocab): (m: int)
    requires Contiguous(v) && |v| > 0
    ensures m in v
    ensures forall i :: i in v ==> i <= m
  {
    |v| - 1
  }

  /** `vocab[max(vocab.keys()) + 1] = token`: the token goes under a fresh id
      above every id in use, every old entry is kept, and the vocabulary
      stays contiguous, growing by exactly one entry. */
  function AddToken(v: Vocab, token: Token): (r: Vocab)
    requires Contiguous(v) && |v| > 0
    ensures Contiguous(r) && |r| == |v| + 1
    ensures r[|v|] == token
    ensures forall i :: i in v ==> r[i] == v[i]
  {
    var id := MaxId(v) + 1;
    assert id !in v;
    v[id := token]
  }

  /** On the view of a token sequence, adding a token appends it. */
  lemma AddTokenAppends(tokens: seq<Token>, token: Token)
    requires |tokens| > 0
    ensures Contiguous(AsVocab(tokens)) && |AsVocab(tokens)| == |tokens|
    ensures AddToken(AsVocab(tokens), token) == AsVocab(tokens + [token])
  {
    AsVocabSize(tokens);
    WriteAppends(tokens, token);
  }

  /** Each token in order under `max(vocab.keys()) + 1`: the loop over the
      special tokens in `init_vocab`, and the recording of each merged
      token, one per merge. */
  function AddTokens(v: Vocab, ts: seq<Token>): (r: Vocab)
    requires Contiguous(v) && |v| > 0
    ensures Contiguous(r) && |r| == |v| + |ts|
    decreases |ts|
  {
    if |ts| == 0 then v
    else AddTokens(AddToken(v, ts[0]), ts[1..])
  }

  /** On the view of a token sequence, adding tokens appends them in
      order. */
  lemma {:induction false} AddTokensAppends(tokens: seq<Token>, ts: seq<Token>)
    requires |tokens| > 0
    ensures Contiguous(AsVocab(tokens)) && |AsVocab(tokens)| == |tokens|
    ensures AddTokens(AsVocab(tokens), ts) == AsVocab(tokens + ts)
    decreases |ts|
  {
    AsVocabSize(tokens);
    if |ts| == 0 {
      assert tokens + ts == tokens;
    } else {
      var tokens1 := tokens + [ts[0]];
      AddTokenAppends(tokens, ts[0]);
      assert AddTokens(AsVocab(tokens), ts) == AddTokens(AsVocab(tokens1), ts[1..]);
      AddTokensAppends(tokens1, ts[1..]);
      assert tokens1 + ts[1..] == tokens + ts;
    }
  }

  /** `bytes([i])`. */
  function ByteToken(i: int): (t: Token)
    requires 0 <= i < 256
    ensures |t| == 1 && t[0] as int == i
  {
    [i as Byte]
  }

  /** The 256 single bytes in byte order. */
  function ByteTokens(): (ts: seq<Token>)
    ensures |ts| == 256
    ensures forall i :: 0 <= i < 256 ==> ts[i] == [i as Byte]
  {
    seq(256, i requires 0 <= i < 256 => ByteToken(i))
  }

  /** `{idx: bytes([idx]) for idx in range(256)}`: ids `0..255`, id `i`
      holding the single byte `i`. */
  function ByteVocab(): (v: Vocab)
    ensures Contiguous(v) && |v| == 256
    ensures forall i :: 0 <= i < 256 ==> v[i] == [i as Byte]
  {
    ByteVocabView();
    map i | 0 <= i < 256 :: ByteToken(i)
  }

  /** The byte vocabulary is the view of the 256 single bytes. */
  lemma ByteVocabView()
    ensures (map i | 0 <= i < 256 :: ByteToken(i)) == AsVocab(ByteTokens())
    ensures Contiguous(AsVocab(ByteTokens())) && |AsVocab(ByteTokens())| == 256
  {
    AsVocabSize(ByteTokens());
  }

  /** `init_vocab` of `bpe.py`: the 256 single bytes, then each special
      token (given by its UTF-8 bytes) under `max(vocab.keys()) + 1`, in
      input order. */
  function InitVocab(specials: seq<Token>): Vocab {
    AddTokens(ByteVocab(), specials)
  }

  /** `init_vocab` holds the bytes under ids `0..255` and the `j`-th special
      token under `256 + j`. */
  lemma InitVocabView(specials: seq<Token>)
    ensures Contiguous(InitVocab(specials)) && |InitVocab(specials)| == 256 + |specials|
    ensures InitVocab(specials) == AsVocab(ByteTokens() + specials)
  {
    ByteVocabView();
    AddTokensAppends(ByteTokens(), specials);
  }

  /** The vocabulary initialisation of `bpe_zitong.py`, which writes the
      `i`-th special token under id `256 + i` directly. No write lands on an
      id in use, so the ids stay contiguous. */
  function DirectInitVocab(specials: seq<Token>): (v: Vocab)
    ensures Contiguous(v) && |v| == 256 + |specials|
    decreases |specials|
  {
    if |specials| == 0 then ByteVocab()
    else
      var n := |specials| - 1;
      var v := DirectInitVocab(specials[..n]);
      assert 256 + n !in v;
      v[256 + n := specials[n]]
  }

  /** `bpe_zitong.py` holds the bytes under ids `0..255` and the `j`-th
      special token under `256 + j`. */
  lemma {:induction false} DirectInitVocabView(specials: seq<Token>)
    ensures DirectInitVocab(specials) == AsVocab(ByteTokens() + specials)
    decreases |specials|
  {
    if |specials| == 0 {
      ByteVocabView();
      assert ByteTokens() + specials == ByteTokens();
    } else {
      var n := |specials| - 1;
      var init := specials[..n];
      DirectInitVocabView(init);
      assert DirectInitVocab(specials) == AsVocab(ByteTokens() + init)[|ByteTokens() + init| := specials[n]];
      WriteAppends(ByteTokens() + init, specials[n]);
      assert ByteTokens() + init + [specials[n]] == ByteTokens() + specials;
    }
  }

  /** Both trainers start from the same vocabulary. */
  lemma SameStart(specials: seq<Token>)
    ensures DirectInitVocab(specials) == InitVocab(specials)
  {
    DirectInitVocabView(specials);
    InitVocabView(specials);
  }

  /** The joined token of each merge, in order. */
  function Joins(ms: seq<Pair>): (ts: seq<Token>)
    ensures |ts| == |ms|
    ensures forall j :: 0 <= j < |ms| ==> ts[j] == ms[j].Joined()
  {
    seq(|ms|, j requires 0 <= j < |ms| => ms[j].Joined())
  }
}
