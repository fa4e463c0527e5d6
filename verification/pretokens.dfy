/** From pre-tokens to the lists the trainers work on. A pre-token is given
    by its UTF-8 bytes; `bpe.py` keeps one list of single-byte tokens per
    pre-token occurrence, while `bpe_zitong.py` counts the pre-tokens with
    a `Counter` and keeps one tuple per distinct pre-token. */
module Pretokens {
  import opened Bytes
  import opened Counting

  /** `[bytes([b]) for b in pretoken]`: one single-byte token per byte. */
  function SplitBytes(bs: seq<Byte>): (k: Key)
    ensures |k| == |bs|
    ensures forall i :: 0 <= i < |bs| ==> k[i] == [bs[i]]
  {
    seq(|bs|, i requires 0 <= i < |bs| => [bs[i]])
  }

  /** The split spells out the pre-token again, and every token in it is
      non-empty. */
  lemma {:induction false} SplitBytesFlatten(bs: seq<Byte>)
    ensures Flatten(SplitBytes(bs)) == bs
    ensures NonEmptyTokens(SplitBytes(bs))
    decreases |bs|
  {
    if |bs| > 0 {
      SplitBytesFlatten(bs[1..]);
      assert SplitBytes(bs)[1..] == SplitBytes(bs[1..]);
      assert bs == [bs[0]] + bs[1..];
    }
  }

  /** Different pre-tokens are split into different keys. */
  lemma SplitBytesInjective(a: seq<Byte>, b: seq<Byte>)
    requires a != b
    ensures SplitBytes(a) != SplitBytes(b)
  {
    SplitBytesFlatten(a);
    SplitBytesFlatten(b);
  }

  /** Lines 38-40 of `bpe.py`: the list of single-byte lists, one per
      pre-token occurrence, in corpus order. */
  function ByteLists(pretokens: seq<seq<Byte>>): (lists: seq<Key>)
    ensures |lists| == |pretokens|
    ensures forall i :: 0 <= i < |pretokens| ==> lists[i] == SplitBytes(pretokens[i])
  {
    seq(|pretokens|, i requires 0 <= i < |pretokens| => SplitBytes(pretokens[i]))
  }

  /** One item of a pre-token `Counter`: a pre-token and its count. */
  datatype Counted = Counted(pretoken: seq<Byte>, count: nat)

  /** A `Counter` holds each pre-token once, with a positive count. */
  predicate WellFormedCounter(counter: seq<Counted>) {
    && (forall i, j :: 0 <= i < j < |counter| ==> counter[i].pretoken != counter[j].pretoken)
    && (forall i :: 0 <= i < |counter| ==> counter[i].count > 0)
  }

  /** `counter[pretoken] += 1`: the count of an existing item grows in
      place, a new pre-token is appended with count 1, so items keep their
      first-occurrence order. */
  function Increment(counter: seq<Counted>, x: seq<Byte>): (r: seq<Counted>)
    decreases |counter|
  {
    if |counter| == 0 then [Counted(x, 1)]
    else if counter[0].pretoken == x then [Counted(x, counter[0].count + 1)] + counter[1..]
    else [counter[0]] + Increment(counter[1..], x)
  }

  /** `Counter(pretokens)`, built one pre-token at a time. */
  function Tally(pretokens: seq<seq<Byte>>): seq<Counted>
    decreases |pretokens|
  {
    if |pretokens| == 0 then []
    else Increment(Tally(pretokens[..|pretokens| - 1]), pretokens[|pretokens| - 1])
  }

  /** The corpus a counter stands for, grouped by pre-token: each pre-token
      repeated as often as it was counted. */
  function Occurrences(counter: seq<Counted>): seq<seq<Byte>>
    decreases |counter|
  {
    if |counter| == 0 then []
    else seq(counter[0].count, _ => counter[0].pretoken) + Occurrences(counter[1..])
  }

  /** The pre-tokens a counter holds. */
  function Items(counter: seq<Counted>): (s: set<seq<Byte>>)
    ensures forall x :: x in s <==> exists i :: 0 <= i < |counter| && counter[i].pretoken == x
  {
    set i | 0 <= i < |counter| :: counter[i].pretoken
  }

  /** A non-empty counter holds its first pre-token and those of the rest. */
  lemma ItemsCons(counter: seq<Counted>)
    requires |counter| > 0
    ensures Items(counter) == {counter[0].pretoken} + Items(counter[1..])
  {
    var tail := counter[1..];
    forall y | y in Items(counter)
      ensures y == counter[0].pretoken || y in Items(tail)
    {
      var i :| 0 <= i < |counter| && counter[i].pretoken == y;
      if i > 0 {
        assert counter[i] == tail[i - 1];
      }
    }
    forall y | y in Items(tail)
      ensures y in Items(counter)
    {
      var i :| 0 <= i < |tail| && tail[i].pretoken == y;
      assert counter[i + 1] == tail[i];
    }
  }

  /** Counting `x` adds `x` to the pre-tokens held, and nothing else. */
  lemma {:induction false} IncrementItems(counter: seq<Counted>, x: seq<Byte>)
    ensures Items(Increment(counter, x)) == Items(counter) + {x}
    decreases |counter|
  {
    var r := Increment(counter, x);
    assert |r| > 0;
    ItemsCons(r);
    if |counter| > 0 {
      ItemsCons(counter);
      if counter[0].pretoken == x {
        assert r[1..] == counter[1..];
      } else {
        IncrementItems(counter[1..], x);
        assert r[1..] == Increment(counter[1..], x);
      }
    }
  }

  /** The rest of a well-formed counter is well formed and does not hold
      its first pre-token. */
  lemma WellFormedTail(counter: seq<Counted>)
    requires WellFormedCounter(counter) && |counter| > 0
    ensures WellFormedCounter(counter[1..])
    ensures counter[0].pretoken !in Items(counter[1..])
  {
    var tail := counter[1..];
    forall i | 0 <= i < |tail|
      ensures tail[i] == counter[i + 1]
      ensures tail[i].pretoken != counter[0].pretoken
    {
    }
  }

  /** Putting an item with a new pre-token and a positive count in front of
      a well-formed counter keeps it well formed. */
  lemma WellFormedCons(c: Counted, rest: seq<Counted>)
    requires WellFormedCounter(rest) && c.count > 0 && c.pretoken !in Items(rest)
    ensures WellFormedCounter([c] + rest)
  {
    var r := [c] + rest;
    forall i, j | 0 <= i < j < |r|
      ensures r[i].pretoken != r[j].pretoken
    {
      assert r[j] == rest[j - 1];
      if i > 0 {
        assert r[i] == rest[i - 1];
      }
    }
  }

  /** Counting keeps a counter well formed: the count of a held pre-token
      grows, and a new one enters with count 1. */
  lemma {:induction false} IncrementWellFormed(counter: seq<Counted>, x: seq<Byte>)
    requires WellFormedCounter(counter)
    ensures WellFormedCounter(Increment(counter, x))
    decreases |counter|
  {
    if |counter| > 0 {
      var tail := counter[1..];
      WellFormedTail(counter);
      if counter[0].pretoken == x {
        WellFormedCons(Counted(x, counter[0].count + 1), tail);
      } else {
        IncrementWellFormed(tail, x);
        IncrementItems(tail, x);
        WellFormedCons(counter[0], Increment(tail, x));
      }
    }
  }

  /** Counting `x` makes the counter stand for one more occurrence of `x`. */
  lemma {:induction false} IncrementOccurrences(counter: seq<Counted>, x: seq<Byte>)
    ensures multiset(Occurrences(Increment(counter, x))) == multiset(Occurrences(counter)) + multiset{x}
    decreases |counter|
  {
    var r := Increment(counter, x);
    if |counter| == 0 {
      assert Occurrences(r) == [x] + Occurrences([]);
    } else if counter[0].pretoken == x {
      assert r[1..] == counter[1..];
      var head := seq(counter[0].count, _ => x);
      assert seq(counter[0].count + 1, _ => x) == head + [x];
      assert Occurrences(r) == head + [x] + Occurrences(counter[1..]);
    } else {
      IncrementOccurrences(counter[1..], x);
      assert r[1..] == Increment(counter[1..], x);
    }
  }

  /** `Counter(pretokens)` holds each pre-token once with a positive count,
      holds exactly the pre-tokens of the corpus, and stands for the same
      multiset of pre-token occurrences as the corpus. */
  lemma {:induction false} TallySpec(pretokens: seq<seq<Byte>>)
    ensures WellFormedCounter(Tally(pretokens))
    ensures multiset(Occurrences(Tally(pretokens))) == multiset(pretokens)
    decreases |pretokens|
  {
    if |pretokens| > 0 {
      var init := pretokens[..|pretokens| - 1];
      TallySpec(init);
      IncrementWellFormed(Tally(init), pretokens[|pretokens| - 1]);
      IncrementOccurrences(Tally(init), pretokens[|pretokens| - 1]);
      assert pretokens == init + [pretokens[|pretokens| - 1]];
    }
  }

  /** Lines 44-47 of `bpe_zitong.py`: the pre-token frequency table, one
      entry per counter item, keyed by the pre-token split into single
      bytes. */
  function BuildTable(counter: seq<Counted>): (table: seq<Entry>)
    ensures |table| == |counter|
    ensures forall i :: 0 <= i < |counter| ==>
              table[i] == Entry(SplitBytes(counter[i].pretoken), counter[i].count)
  {
    seq(|counter|, i requires 0 <= i < |counter| => Entry(SplitBytes(counter[i].pretoken), counter[i].count))
  }

  /** The table built from a well-formed counter has distinct keys spelling
      distinct byte strings, so no assignment in lines 46-47 overwrites an
      earlier one; its frequencies are positive and its keys are made of
      non-empty tokens. */
  lemma BuildTableWellFormed(counter: seq<Counted>)
    requires WellFormedCounter(counter)
    ensures DistinctBytes(BuildTable(counter))
    ensures PositiveFreqs(BuildTable(counter))
    ensures forall i :: 0 <= i < |counter| ==> NonEmptyTokens(BuildTable(counter)[i].key)
  {
    var table := BuildTable(counter);
    forall i | 0 <= i < |counter|
      ensures Flatten(table[i].key) == counter[i].pretoken
      ensures NonEmptyTokens(table[i].key)
    {
      SplitBytesFlatten(counter[i].pretoken);
    }
  }

  /** The table, unfolded into one list per occurrence, is exactly what
      `bpe.py` builds from the same corpus grouped by pre-token. */
  lemma {:induction false} BuildTableExpand(counter: seq<Counted>)
    ensures Expand(BuildTable(counter)) == ByteLists(Occurrences(counter))
    decreases |counter|
  {
    if |counter| > 0 {
      BuildTableExpand(counter[1..]);
      assert BuildTable(counter)[1..] == BuildTable(counter[1..]);
      var head := seq(counter[0].count, _ => counter[0].pretoken);
      var tail := Occurrences(counter[1..]);
      assert ByteLists(head + tail) == ByteLists(head) + ByteLists(tail);
    }
  }
}
