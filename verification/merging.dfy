/** The merge step of `bpe.py`: greedy, left-to-right, non-overlapping
    replacement of every occurrence of the chosen pair by its concatenation. */
module Merging {
  import opened Bytes
  import opened Counting

  /** `merge` on one list: scanning from the left, an occurrence of `p`
      becomes `p.Joined()` and the scan resumes after it; any other token is
      copied. */
  function Merge(k: Key, p: Pair): Key
    decreases |k|
  {
    if |k| == 0 then []
    else if |k| >= 2 && k[0] == p.first && k[1] == p.second then [p.Joined()] + Merge(k[2..], p)
    else [k[0]] + Merge(k[1..], p)
  }

  /** `merge` on a list of lists: each list merged on its own. */
  function MergeAll(lists: seq<Key>, p: Pair): (r: seq<Key>)
    ensures |r| == |lists|
    ensures forall i :: 0 <= i < |lists| ==> r[i] == Merge(lists[i], p)
  {
    seq(|lists|, i requires 0 <= i < |lists| => Merge(lists[i], p))
  }

  /** Merging never changes the bytes a list spells out. */
  lemma {:induction false} MergeFlatten(k: Key, p: Pair)
    ensures Flatten(Merge(k, p)) == Flatten(k)
    decreases |k|
  {
    if |k| >= 2 && k[0] == p.first && k[1] == p.second {
      MergeFlatten(k[2..], p);
      assert Flatten(k) == k[0] + (k[1] + Flatten(k[2..]));
      assert [p.Joined()] + Merge(k[2..], p) == Merge(k, p);
      assert Flatten(Merge(k, p)) == p.Joined() + Flatten(Merge(k[2..], p));
    } else if |k| > 0 {
      MergeFlatten(k[1..], p);
      assert ([k[0]] + Merge(k[1..], p))[1..] == Merge(k[1..], p);
    }
  }

  /** A list without an occurrence of the pair comes back unchanged. */
  lemma {:induction false} MergeNoOccurrence(k: Key, p: Pair)
    requires Occ(k, p) == 0
    ensures Merge(k, p) == k
    decreases |k|
  {
    if |k| >= 2 {
      MergeNoOccurrence(k[1..], p);
      assert k == [k[0]] + k[1..];
    } else if |k| == 1 {
      assert k == [k[0]] + k[1..];
    }
  }

  /** The number of replacements, `|k| - |Merge(k, p)|`, lies between half
      the occurrences and all of them; when the two halves of the pair differ,
      occurrences cannot overlap and every one is replaced. In particular a
      list shrinks exactly when the pair occurs in it. */
  lemma {:induction false} MergeLength(k: Key, p: Pair)
    ensures |Merge(k, p)| <= |k|
    ensures |k| - |Merge(k, p)| <= Occ(k, p) <= 2 * (|k| - |Merge(k, p)|)
    ensures p.first != p.second ==> |k| - |Merge(k, p)| == Occ(k, p)
    decreases |k|
  {
    if |k| >= 2 && k[0] == p.first && k[1] == p.second {
      MergeLength(k[2..], p);
      assert k[1..][1..] == k[2..];
    } else if |k| > 0 {
      MergeLength(k[1..], p);
    }
  }

  /** The first token of a merged list. */
  lemma MergeHead(k: Key, p: Pair)
    requires |k| > 0
    ensures |Merge(k, p)| > 0
    ensures Merge(k, p)[0]
            == if |k| >= 2 && k[0] == p.first && k[1] == p.second then p.Joined() else k[0]
  {
  }

  /** With non-empty tokens, no occurrence of the pair survives a merge: the
      scan never leaves two adjacent tokens forming it. */
  lemma {:induction false} MergeRemovesPair(k: Key, p: Pair)
    requires NonEmptyTokens(k) && |p.first| > 0 && |p.second| > 0
    ensures Occ(Merge(k, p), p) == 0
    decreases |k|
  {
    if |k| >= 2 && k[0] == p.first && k[1] == p.second {
      var rest := k[2..];
      assert NonEmptyTokens(rest) by {
        forall i | 0 <= i < |rest| ensures |rest[i]| > 0 {
          assert rest[i] == k[i + 2];
        }
      }
      MergeRemovesPair(rest, p);
      var m := Merge(rest, p);
      assert Merge(k, p) == [p.Joined()] + m;
      if |m| > 0 {
        assert |p.Joined()| > |p.first|;
        assert ([p.Joined()] + m)[1..] == m;
      }
    } else if |k| > 0 {
      var rest := k[1..];
      assert NonEmptyTokens(rest) by {
        forall i | 0 <= i < |rest| ensures |rest[i]| > 0 {
          assert rest[i] == k[i + 1];
        }
      }
      MergeRemovesPair(rest, p);
      var m := Merge(rest, p);
      assert Merge(k, p) == [k[0]] + m;
      if |m| > 0 {
        MergeHead(rest, p);
        if |rest| >= 2 && rest[0] == p.first && rest[1] == p.second {
          assert |m[0]| > |p.second|;
        }
        assert ([k[0]] + m)[1..] == m;
      }
    }
  }

  /** The greedy scan is non-overlapping: `[a, a, a]` with the pair `(a, a)`
      becomes `[aa, a]`. */
  lemma MergeOverlapExample(a: Token)
    ensures Merge([a, a, a], Pair(a, a)) == [a + a, a]
  {
    var k := [a, a, a];
    assert k[2..] == [a];
    assert Merge([a], Pair(a, a)) == [a] + Merge([], Pair(a, a));
  }

  /** `merge` as the source writes it: a `while` loop over each list that
      appends either the joined pair (skipping two tokens) or the current
      token (skipping one). It returns as many lists as it is given, each
      the greedy merge of its input. */
  method MergeLists(oldTokens: seq<Key>, topPair: Pair) returns (newTokens: seq<Key>)
    ensures |newTokens| == |oldTokens|
    ensures forall n :: 0 <= n < |oldTokens| ==> newTokens[n] == Merge(oldTokens[n], topPair)
  {
    newTokens := [];
    var n := 0;
    while n < |oldTokens|
      invariant 0 <= n <= |oldTokens|
      invariant |newTokens| == n
      invariant forall j :: 0 <= j < n ==> newTokens[j] == Merge(oldTokens[j], topPair)
    {
      var bTokens := oldTokens[n];
      var newList: Key := [];
      var i := 0;
      while i < |bTokens|
        invariant 0 <= i <= |bTokens|
        invariant newList + Merge(bTokens[i..], topPair) == Merge(bTokens, topPair)
      {
        if i < |bTokens| - 1 && bTokens[i] == topPair.first && bTokens[i + 1] == topPair.second {
          assert bTokens[i..][2..] == bTokens[i + 2..];
          newList := newList + [topPair.Joined()];
          i := i + 2;
        } else {
          assert bTokens[i..][1..] == bTokens[i + 1..];
          newList := newList + [bTokens[i]];
          i := i + 1;
        }
      }
      assert newList == Merge(bTokens, topPair);
      newTokens := newTokens + [newList];
      n := n + 1;
    }
  }

  /** Merging keeps the list count and each list's bytes: the statement of
      `bpe.py`'s `merge` over a whole corpus. */
  lemma MergeAllPreserves(lists: seq<Key>, p: Pair)
    ensures |MergeAll(lists, p)| == |lists|
    ensures forall i :: 0 <= i < |lists| ==> Flatten(MergeAll(lists, p)[i]) == Flatten(lists[i])
  {
    forall i | 0 <= i < |lists|
      ensures Flatten(MergeAll(lists, p)[i]) == Flatten(lists[i])
    {
      MergeFlatten(lists[i], p);
    }
  }

  /** The table with every key merged, frequencies kept. */
  function MergeTable(table: seq<Entry>, p: Pair): (r: seq<Entry>)
    ensures |r| == |table|
    ensures forall i :: 0 <= i < |table| ==> r[i] == Entry(Merge(table[i].key, p), table[i].freq)
  {
    seq(|table|, i requires 0 <= i < |table| => Entry(Merge(table[i].key, p), table[i].freq))
  }

  /** Merging the expanded table is expanding the merged table. */
  lemma {:induction false} MergeAllExpand(table: seq<Entry>, p: Pair)
    ensures MergeAll(Expand(table), p) == Expand(MergeTable(table, p))
  {
    if |table| > 0 {
      MergeAllExpand(table[1..], p);
      assert MergeTable(table, p)[1..] == MergeTable(table[1..], p);
      var head := Repeat(table[0].key, table[0].freq);
      var tail := Expand(table[1..]);
      assert MergeAll(head + tail, p) == MergeAll(head, p) + MergeAll(tail, p);
      assert MergeAll(head, p) == Repeat(Merge(table[0].key, p), table[0].freq);
    }
  }
}
