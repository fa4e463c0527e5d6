/** Byte strings, tokens, pre-token keys and adjacent pairs: the values the
    BPE trainer manipulates, and the two measures everything else is stated
    with — the bytes a key spells out and how often a pair occurs in it. */
module Bytes {

  /** One byte, the value of `bytes([i])[0]` for `0 <= i < 256`. */
  newtype Byte = b: int | 0 <= b < 256

  /** A byte token: one unit of the current segmentation (a Python `bytes`). */
  type Token = seq<Byte>

  /** A pre-token key: the current segmentation of one pre-token into tokens
      (a Python list or tuple of `bytes`). */
  type Key = seq<Token>

  /** An adjacent pair of tokens, the Python 2-tuple `(bytes, bytes)`. */
  datatype Pair = Pair(first: Token, second: Token) {
    /** The token a merge of this pair creates, `b"".join(pair)`. */
    function Joined(): Token {
      first + second
    }
  }

  /** The byte string a key spells out, `b"".join(key)`. */
  function Flatten(k: Key): seq<Byte> {
    if |k| == 0 then [] else k[0] + Flatten(k[1..])
  }

  /** Every token of `k` holds at least one byte. */
  predicate NonEmptyTokens(k: Key) {
    forall i :: 0 <= i < |k| ==> |k[i]| > 0
  }

  /** The number of positions `i` with `(k[i], k[i+1]) == q`: how often `q`
      occurs as an adjacent pair inside `k`, overlapping occurrences included. */
  function Occ(k: Key, q: Pair): nat {
    if |k| < 2 then 0
    else (if Pair(k[0], k[1]) == q then 1 else 0) + Occ(k[1..], q)
  }

  /** The adjacent pair starting at position `i` of `k`. */
  function PairAt(k: Key, i: nat): Pair
    requires i + 1 < |k|
  {
    Pair(k[i], k[i + 1])
  }

  /** The set of adjacent pairs of `k`. */
  function PairsOf(k: Key): set<Pair> {
    set i: nat | i + 1 < |k| :: PairAt(k, i)
  }

  /** 1 when the last token of `a` and the first token of `b` form `q`. */
  function Seam(a: Key, b: Key, q: Pair): nat {
    if |a| > 0 && |b| > 0 && Pair(a[|a| - 1], b[0]) == q then 1 else 0
  }

  lemma {:induction false} FlattenConcat(a: Key, b: Key)
    ensures Flatten(a + b) == Flatten(a) + Flatten(b)
  {
    if |a| > 0 {
      assert (a + b)[1..] == a[1..] + b;
      FlattenConcat(a[1..], b);
    } else {
      assert a + b == b;
    }
  }

  /** Splitting a key in two loses exactly the pair that straddles the cut. */
  lemma {:induction false} OccConcat(a: Key, b: Key, q: Pair)
    ensures Occ(a + b, q) == Occ(a, q) + Occ(b, q) + Seam(a, b, q)
  {
    if |a| == 0 {
      assert a + b == b;
    } else if |a| == 1 {
      if |b| > 0 {
        assert (a + b)[1..] == b;
      }
    } else {
      assert (a + b)[1..] == a[1..] + b;
      OccConcat(a[1..], b, q);
    }
  }

  /** A pair is counted by `Occ` exactly when it is one of the key's adjacent pairs. */
  lemma {:induction false} OccPositive(k: Key, q: Pair)
    ensures Occ(k, q) > 0 <==> q in PairsOf(k)
  {
    if |k| >= 2 {
      OccPositive(k[1..], q);
      assert PairAt(k, 0) in PairsOf(k);
      if q in PairsOf(k[1..]) {
        var i: nat :| i + 1 < |k[1..]| && PairAt(k[1..], i) == q;
        assert PairAt(k, i + 1) == q;
        assert q in PairsOf(k);
      }
      if q in PairsOf(k) && Pair(k[0], k[1]) != q {
        var i: nat :| i + 1 < |k| && PairAt(k, i) == q;
        assert i > 0;
        assert PairAt(k[1..], i - 1) == q;
        assert q in PairsOf(k[1..]);
      }
    }
  }
}
