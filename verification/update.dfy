/** The incremental step of `bpe_zitong.py`: rewriting each key of the
    deduplicated table with `_update_byte_tuple` while patching the weighted
    pair table at every merge site, instead of recounting it. */
module Update {
  import opened Bytes
  import opened Counting
  import opened Merging

  /** The three results of `_update_byte_tuple`: the new tuple, and the
      prefix and suffix around the merge location. */
  datatype Split = Split(merged: Key, prefix: Key, suffix: Key)

  /** A Python slice bound `i` on a sequence of length `n`: bounds past
      the end are clipped to it. */
  function Clip(i: nat, n: nat): (c: nat)
    ensures c <= n
    ensures i <= n ==> c == i
    ensures n <= i ==> c == n
  {
    if i < n then i else n
  }

  /** Joining the middle part of a split into one token keeps the bytes
      spelled out. */
  lemma SpliceFlatten(prefix: Key, middle: Key, suffix: Key)
    ensures Flatten(prefix + [Flatten(middle)] + suffix) == Flatten(prefix + middle + suffix)
  {
    FlattenConcat(prefix + middle, suffix);
    FlattenConcat(prefix, middle);
    FlattenConcat(prefix + [Flatten(middle)], suffix);
    FlattenConcat(prefix, [Flatten(middle)]);
    assert Flatten([Flatten(middle)]) == Flatten(middle) + Flatten([]);
  }

  /** At a position with a right neighbour the split joins exactly the two
      tokens there. */
  lemma SpliceAt(t: Key, loc: nat)
    requires loc + 1 < |t|
    ensures Flatten(t[loc..loc + 2]) == t[loc] + t[loc + 1]
  {
    var middle := t[loc..loc + 2];
    assert middle == [t[loc], t[loc + 1]];
    assert middle[1..] == [t[loc + 1]] && middle[1..][1..] == [];
    assert Flatten(middle) == t[loc] + (t[loc + 1] + Flatten([]));
  }

  /** `_update_byte_tuple(byte_tuple, merge_loc)`, with Python's clipping of
      slice bounds: the tokens in `[loc, loc + 2)` are joined into one. The
      bytes spelled out never change; when `loc + 1 < |t|` the tuple loses
      one element, and everything before `loc` and after `loc + 1` is
      kept. */
  function UpdateByteTuple(t: Key, loc: nat): (s: Split)
    requires |t| > 1
    ensures Flatten(s.merged) == Flatten(t)
    ensures loc + 1 < |t| ==>
              && |s.merged| == |t| - 1
              && s.merged[loc] == t[loc] + t[loc + 1]
              && s.merged[..loc] == t[..loc] == s.prefix
              && s.merged[loc + 1..] == t[loc + 2..] == s.suffix
  {
    var lo, hi := Clip(loc, |t|), Clip(loc + 2, |t|);
    var prefix, middle, suffix := t[..lo], t[lo..hi], t[hi..];
    SpliceFlatten(prefix, middle, suffix);
    assert t == prefix + middle + suffix;
    if loc + 1 < |t| then
      SpliceAt(t, loc);
      Split(prefix + [Flatten(middle)] + suffix, prefix, suffix)
    else
      Split(prefix + [Flatten(middle)] + suffix, prefix, suffix)
  }

  /** Lines 118-128: the pair-table patch for one merge site. Against the
      left neighbour the old pair loses `f` and the pair with the joined
      token gains `f`; the same against the right neighbour; the merged pair
      itself loses `f`. */
  function SiteUpdate(s: Split, p: Pair, f: int, pf: PairCounts): PairCounts {
    var joined := p.Joined();
    var afterPrefix :=
      if |s.prefix| > 0 then
        var left := s.prefix[|s.prefix| - 1];
        Bump(Bump(pf, Pair(left, joined), f), Pair(left, p.first), -f)
      else pf;
    var afterSuffix :=
      if |s.suffix| > 0 then
        var right := s.suffix[0];
        Bump(Bump(afterPrefix, Pair(joined, right), f), Pair(p.second, right), -f)
      else afterPrefix;
    Bump(afterSuffix, p, -f)
  }

  /** 1 when `c` holds, else 0. */
  function Ind(c: bool): int {
    if c then 1 else 0
  }

  /** How the occurrences of `q` change when the adjacent tokens `x, y`
      between `a` and `b` are joined: the pairs with the neighbours are
      replaced, and the pair `(x, y)` itself disappears. */
  lemma OccSiteDelta(a: Key, x: Token, y: Token, b: Key, q: Pair)
    ensures Occ(a + ([x + y] + b), q) - Occ(a + ([x, y] + b), q)
            == Ind(|a| > 0 && Pair(a[|a| - 1], x + y) == q) - Ind(|a| > 0 && Pair(a[|a| - 1], x) == q)
               + Ind(|b| > 0 && Pair(x + y, b[0]) == q) - Ind(|b| > 0 && Pair(y, b[0]) == q)
               - Ind(Pair(x, y) == q)
  {
    OccConcat(a, [x, y] + b, q);
    OccConcat([x, y], b, q);
    OccConcat(a, [x + y] + b, q);
    OccConcat([x + y], b, q);
    assert Occ([x, y], q) == Ind(Pair(x, y) == q);
  }

  /** How one site patch changes the count of `q`. */
  lemma SiteUpdateGet(s: Split, p: Pair, f: int, pf: PairCounts, q: Pair)
    ensures Get(SiteUpdate(s, p, f, pf), q)
            == Get(pf, q)
               + f * Ind(|s.prefix| > 0 && Pair(s.prefix[|s.prefix| - 1], p.Joined()) == q)
               - f * Ind(|s.prefix| > 0 && Pair(s.prefix[|s.prefix| - 1], p.first) == q)
               + f * Ind(|s.suffix| > 0 && Pair(p.Joined(), s.suffix[0]) == q)
               - f * Ind(|s.suffix| > 0 && Pair(p.second, s.suffix[0]) == q)
               - f * Ind(p == q)
  {
  }

  /** One merge site changes the count of every pair by exactly `f` times
      the change in its number of occurrences in the tuple. */
  lemma SiteUpdateDelta(t: Key, i: nat, p: Pair, f: int, pf: PairCounts, q: Pair)
    requires i + 1 < |t| && t[i] == p.first && t[i + 1] == p.second
    ensures Get(SiteUpdate(UpdateByteTuple(t, i), p, f, pf), q)
            == Get(pf, q) + f * Occ(UpdateByteTuple(t, i).merged, q) - f * Occ(t, q)
  {
    var s := UpdateByteTuple(t, i);
    var a := t[..i];
    var b := t[i + 2..];
    var x, y := p.first, p.second;
    assert s.prefix == a && s.suffix == b;
    assert t == a + ([x, y] + b);
    assert s.merged == a + ([x + y] + b);
    assert p.Joined() == x + y;
    var l1 := Ind(|a| > 0 && Pair(a[|a| - 1], x + y) == q);
    var l0 := Ind(|a| > 0 && Pair(a[|a| - 1], x) == q);
    var r1 := Ind(|b| > 0 && Pair(x + y, b[0]) == q);
    var r0 := Ind(|b| > 0 && Pair(y, b[0]) == q);
    var self := Ind(Pair(x, y) == q);
    var m: int := Occ(s.merged, q);
    var o: int := Occ(t, q);
    assert m - o == l1 - l0 + r1 - r0 - self by {
      OccSiteDelta(a, x, y, b, q);
    }
    assert Get(SiteUpdate(s, p, f, pf), q)
           == Get(pf, q) + f * l1 - f * l0 + f * r1 - f * r0 - f * self by {
      SiteUpdateGet(s, p, f, pf, q);
    }
    Distribute(f, m, o, l1, l0, r1, r0, self);
  }

  lemma Distribute(f: int, m: int, o: int, l1: int, l0: int, r1: int, r0: int, self: int)
    requires m - o == l1 - l0 + r1 - r0 - self
    ensures f * m - f * o == f * l1 - f * l0 + f * r1 - f * r0 - f * self
  {
    assert f * m - f * o == f * (m - o);
    assert f * (l1 - l0 + r1 - r0 - self) == f * l1 - f * l0 + f * r1 - f * r0 - f * self;
  }

  /** A key after its rewrite, with the patched pair table. */
  datatype Rewrite = Rewrite(key: Key, counts: PairCounts)

  /** Lines 111-129: the `while i < len(pretoken_tuple)` loop over one key
      from position `i`. At a match the tuple is rewritten in place, the
      pair table patched, and `i` still advances by one, so the scan resumes
      after the joined token. */
  function RewriteFrom(t: Key, i: nat, p: Pair, f: int, pf: PairCounts): Rewrite
    requires i <= |t|
    decreases |t| - i
  {
    if i >= |t| then Rewrite(t, pf)
    else if i + 1 < |t| && t[i] == p.first && t[i + 1] == p.second then
      var s := UpdateByteTuple(t, i);
      RewriteFrom(s.merged, i + 1, p, f, SiteUpdate(s, p, f, pf))
    else RewriteFrom(t, i + 1, p, f, pf)
  }

  /** The scan from `i` leaves the part before `i` alone and merges the rest
      exactly as `bpe.py`'s `merge` does. */
  lemma {:induction false} RewriteFromKey(t: Key, i: nat, p: Pair, f: int, pf: PairCounts)
    requires i <= |t|
    ensures RewriteFrom(t, i, p, f, pf).key == t[..i] + Merge(t[i..], p)
    decreases |t| - i
  {
    if i >= |t| {
      assert t[..i] == t && t[i..] == [];
    } else if i + 1 < |t| && t[i] == p.first && t[i + 1] == p.second {
      var s := UpdateByteTuple(t, i);
      var pf1 := SiteUpdate(s, p, f, pf);
      assert RewriteFrom(t, i, p, f, pf) == RewriteFrom(s.merged, i + 1, p, f, pf1);
      RewriteFromKey(s.merged, i + 1, p, f, pf1);
      MatchStep(t, i, p, s.merged);
    } else {
      assert RewriteFrom(t, i, p, f, pf) == RewriteFrom(t, i + 1, p, f, pf);
      RewriteFromKey(t, i + 1, p, f, pf);
      MissStep(t, i, p);
    }
  }

  lemma MatchStep(t: Key, i: nat, p: Pair, merged: Key)
    requires i + 1 < |t| && t[i] == p.first && t[i + 1] == p.second
    requires |merged| == |t| - 1
    requires merged[..i] == t[..i] && merged[i] == t[i] + t[i + 1] && merged[i + 1..] == t[i + 2..]
    ensures merged[..i + 1] + Merge(merged[i + 1..], p) == t[..i] + Merge(t[i..], p)
  {
    assert merged[..i + 1] == t[..i] + [p.Joined()];
    MergeAtMatch(t[i..], p);
    assert t[i..][2..] == t[i + 2..];
  }

  lemma MissStep(t: Key, i: nat, p: Pair)
    requires i < |t| && !(i + 1 < |t| && t[i] == p.first && t[i + 1] == p.second)
    ensures t[..i + 1] + Merge(t[i + 1..], p) == t[..i] + Merge(t[i..], p)
  {
    assert t[..i + 1] == t[..i] + [t[i]];
    MergeAtMiss(t[i..], p);
    assert t[i..][1..] == t[i + 1..];
  }

  lemma MergeAtMatch(k: Key, p: Pair)
    requires |k| >= 2 && k[0] == p.first && k[1] == p.second
    ensures Merge(k, p) == [p.Joined()] + Merge(k[2..], p)
  {
  }

  lemma MergeAtMiss(k: Key, p: Pair)
    requires |k| > 0 && !(|k| >= 2 && k[0] == p.first && k[1] == p.second)
    ensures Merge(k, p) == [k[0]] + Merge(k[1..], p)
  {
  }

  /** Over the whole scan the pair table changes by the key's frequency
      times the change in each pair's number of occurrences. */
  lemma {:induction false} RewriteFromCounts(t: Key, i: nat, p: Pair, f: int, pf: PairCounts, q: Pair)
    requires i <= |t|
    ensures Get(RewriteFrom(t, i, p, f, pf).counts, q)
            == Get(pf, q) + f * Occ(RewriteFrom(t, i, p, f, pf).key, q) - f * Occ(t, q)
    decreases |t| - i
  {
    if i < |t| {
      if i + 1 < |t| && t[i] == p.first && t[i + 1] == p.second {
        var s := UpdateByteTuple(t, i);
        SiteUpdateDelta(t, i, p, f, pf, q);
        RewriteFromCounts(s.merged, i + 1, p, f, SiteUpdate(s, p, f, pf), q);
      } else {
        RewriteFromCounts(t, i + 1, p, f, pf, q);
      }
    }
  }

  /** A rewritten table with its patched pair table. */
  datatype Applied = Applied(table: seq<Entry>, counts: PairCounts)

  /** Lines 109-132: every entry of the table rewritten in table order,
      building `new_pretoken_freq` with the same frequencies. */
  function ApplyMerge(table: seq<Entry>, p: Pair, pf: PairCounts): Applied {
    if |table| == 0 then Applied([], pf)
    else
      var r := RewriteFrom(table[0].key, 0, p, table[0].freq, pf);
      var rest := ApplyMerge(table[1..], p, r.counts);
      Applied([Entry(r.key, table[0].freq)] + rest.table, rest.counts)
  }

  /** The rewritten table is the merged table, and the pair table changes by
      the difference of the weighted counts before and after. */
  lemma {:induction false} ApplyMergeSpec(table: seq<Entry>, p: Pair, pf: PairCounts)
    ensures ApplyMerge(table, p, pf).table == MergeTable(table, p)
    ensures forall q :: Get(ApplyMerge(table, p, pf).counts, q)
                        == Get(pf, q) + WCount(MergeTable(table, p), q) - WCount(table, q)
  {
    if |table| > 0 {
      var e := table[0];
      var r := RewriteFrom(e.key, 0, p, e.freq, pf);
      RewriteFromKey(e.key, 0, p, e.freq, pf);
      forall q
        ensures Get(r.counts, q) == Get(pf, q) + e.freq * Occ(r.key, q) - e.freq * Occ(e.key, q)
      {
        RewriteFromCounts(e.key, 0, p, e.freq, pf, q);
      }
      assert e.key[..0] == [] && e.key[0..] == e.key;
      ApplyMergeSpec(table[1..], p, r.counts);
      assert MergeTable(table, p)[1..] == MergeTable(table[1..], p);
      assert MergeTable(table, p)[0] == Entry(r.key, e.freq);
    }
  }

  /** The refinement step: if the maintained pair table agrees with the
      weighted recount of the table before a merge (absent pairs reading
      as 0), it agrees with the weighted recount of the rewritten table
      after it, so no count is ever negative. Each key is rewritten exactly
      as `bpe.py`'s `merge` rewrites it, and with positive frequencies the
      table read as `bpe.py`'s list of lists is the merged list of lists,
      whose recount the maintained table matches on every pair. */
  lemma IncrementalMatchesRecount(table: seq<Entry>, p: Pair, pf: PairCounts)
    requires forall q :: Get(pf, q) == WCount(table, q)
    ensures ApplyMerge(table, p, pf).table == MergeTable(table, p)
    ensures forall i :: 0 <= i < |table| ==>
              ApplyMerge(table, p, pf).table[i].key == Merge(table[i].key, p)
    ensures forall q :: Get(ApplyMerge(table, p, pf).counts, q) == WCount(MergeTable(table, p), q)
    ensures forall q :: q in ApplyMerge(table, p, pf).counts ==> ApplyMerge(table, p, pf).counts[q] >= 0
    ensures Expand(ApplyMerge(table, p, pf).table) == MergeAll(Expand(table), p)
    ensures forall q :: Get(ApplyMerge(table, p, pf).counts, q)
                        == Get(Recount(MergeAll(Expand(table), p)), q)
  {
    var r := ApplyMerge(table, p, pf);
    ApplyMergeSpec(table, p, pf);
    MergeAllExpand(table, p);
    RecountExpand(MergeTable(table, p));
    forall q | q in r.counts
      ensures r.counts[q] >= 0
    {
      assert Get(r.counts, q) == r.counts[q];
    }
  }

  /** Distinct keys keep distinct byte strings after every merge, so keys
      stay distinct and `new_pretoken_freq[key] = freq` never overwrites an
      entry; frequencies (and so their total) are unchanged. */
  lemma MergeTableKeepsKeysApart(table: seq<Entry>, p: Pair)
    requires DistinctBytes(table)
    ensures DistinctBytes(MergeTable(table, p))
    ensures forall i, j :: 0 <= i < j < |table| ==> MergeTable(table, p)[i].key != MergeTable(table, p)[j].key
    ensures forall i :: 0 <= i < |table| ==> MergeTable(table, p)[i].freq == table[i].freq
    ensures PositiveFreqs(table) ==> PositiveFreqs(MergeTable(table, p))
  {
    forall i | 0 <= i < |table|
      ensures Flatten(MergeTable(table, p)[i].key) == Flatten(table[i].key)
    {
      MergeFlatten(table[i].key, p);
    }
  }
}
