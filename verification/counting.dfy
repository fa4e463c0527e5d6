/** Pair-frequency tables: the from-scratch recount of `bpe.py`
    (`get_pair_freq_counts`), the deduplicated pre-token table of
    `bpe_zitong.py` with its weighted counts, and the initial weighted pair
    table built from it. */
module Counting {
  import opened Bytes

  /** A pair-count table, a Python `dict`/`Counter` from pairs to counts. */
  type PairCounts = map<Pair, int>

  /** `m.get(q, 0)`, which is also `Counter.__getitem__`: absent pairs count 0. */
  function Get(m: PairCounts, q: Pair): int {
    if q in m then m[q] else 0
  }

  /** `m[q] += d` on a `Counter` (and `m[q] = m.get(q, 0) + d` on a `dict`):
      the entry is created when absent, every other count is unchanged. */
  function Bump(m: PairCounts, q: Pair, d: int): (r: PairCounts)
    ensures r.Keys == m.Keys + {q}
    ensures Get(r, q) == Get(m, q) + d
    ensures forall x :: x != q ==> Get(r, x) == Get(m, x)
  {
    m[q := Get(m, q) + d]
  }

  /** Some entry of a non-empty table. */
  ghost function Pick(m: PairCounts): (q: Pair)
    requires |m| > 0
    ensures q in m
  {
    assert m.Keys != {} by {
      var x :| x in m;
    }
    var q :| q in m;
    q
  }

  /** The sum of all counts of a table. */
  ghost function SumValues(m: PairCounts): int
    decreases |m|
  {
    if |m| == 0 then 0
    else
      var q := Pick(m);
      assert (m - {q}).Keys == m.Keys - {q};
      m[q] + SumValues(m - {q})
  }

  /** The sum does not depend on which entry is taken out first. */
  lemma {:induction false} SumValuesRemove(m: PairCounts, q: Pair)
    requires q in m
    ensures SumValues(m) == m[q] + SumValues(m - {q})
    decreases |m|
  {
    var p := Pick(m);
    if p != q {
      var mp := m - {p};
      var mq := m - {q};
      assert mp.Keys == m.Keys - {p};
      assert mq.Keys == m.Keys - {q};
      SumValuesRemove(mp, q);
      SumValuesRemove(mq, p);
      assert mp - {q} == mq - {p};
    }
  }

  /** Adding `d` to one count adds `d` to the sum. */
  lemma SumValuesBump(m: PairCounts, q: Pair, d: int)
    ensures SumValues(Bump(m, q, d)) == SumValues(m) + d
  {
    var r := Bump(m, q, d);
    SumValuesRemove(r, q);
    if q in m {
      SumValuesRemove(m, q);
      assert r - {q} == m - {q};
    } else {
      assert r - {q} == m;
    }
  }

  /** Occurrences of `q` summed over every list: pairs are only ever formed
      inside one list, never across two. */
  function OccAll(lists: seq<Key>, q: Pair): nat {
    if |lists| == 0 then 0 else Occ(lists[0], q) + OccAll(lists[1..], q)
  }

  /** The adjacent pairs of all lists. */
  function PairSet(lists: seq<Key>): set<Pair> {
    if |lists| == 0 then {} else PairsOf(lists[0]) + PairSet(lists[1..])
  }

  /** Number of adjacent positions over all lists, the sum of
      `max(len(l) - 1, 0)`. */
  function Slack(lists: seq<Key>): nat {
    if |lists| == 0 then 0
    else (if |lists[0]| > 0 then |lists[0]| - 1 else 0) + Slack(lists[1..])
  }

  /** The from-scratch pair count of a list of token lists: each pair that
      occurs inside some list, with its number of occurrences. */
  function Recount(lists: seq<Key>): PairCounts {
    map q | q in PairSet(lists) :: OccAll(lists, q)
  }

  lemma {:induction false} OccAllConcat(a: seq<Key>, b: seq<Key>, q: Pair)
    ensures OccAll(a + b, q) == OccAll(a, q) + OccAll(b, q)
  {
    if |a| == 0 {
      assert a + b == b;
    } else {
      assert (a + b)[1..] == a[1..] + b;
      OccAllConcat(a[1..], b, q);
    }
  }

  lemma {:induction false} SlackConcat(a: seq<Key>, b: seq<Key>)
    ensures Slack(a + b) == Slack(a) + Slack(b)
  {
    if |a| == 0 {
      assert a + b == b;
    } else {
      assert (a + b)[1..] == a[1..] + b;
      SlackConcat(a[1..], b);
    }
  }

  lemma {:induction false} PairSetOcc(lists: seq<Key>, q: Pair)
    ensures q in PairSet(lists) <==> OccAll(lists, q) > 0
  {
    if |lists| > 0 {
      OccPositive(lists[0], q);
      PairSetOcc(lists[1..], q);
    }
  }

  /** The recount holds exactly the pairs that occur, each with its number
      of occurrences; every count in it is at least 1. */
  lemma RecountSpec(lists: seq<Key>)
    ensures forall q :: Get(Recount(lists), q) == OccAll(lists, q)
    ensures forall q :: q in Recount(lists) <==> OccAll(lists, q) > 0
  {
    forall q
      ensures Get(Recount(lists), q) == OccAll(lists, q)
      ensures q in Recount(lists) <==> OccAll(lists, q) > 0
    {
      PairSetOcc(lists, q);
    }
  }

  /** Occurrences among the pairs that start before position `i`. */
  function OccBefore(k: Key, i: nat, q: Pair): nat {
    Occ(k[..if i < |k| then i + 1 else |k|], q)
  }

  /** Number of adjacent positions before position `i`. */
  function PositionsBefore(k: Key, i: nat): nat {
    if i + 1 < |k| then i else if |k| > 0 then |k| - 1 else 0
  }

  lemma OccBeforeStep(k: Key, i: nat, q: Pair)
    requires i < |k|
    ensures OccBefore(k, i + 1, q)
            == OccBefore(k, i, q) + (if i + 1 < |k| && PairAt(k, i) == q then 1 else 0)
  {
    if i + 1 < |k| {
      assert k[..i + 2] == k[..i + 1] + [k[i + 1]];
      OccConcat(k[..i + 1], [k[i + 1]], q);
    }
  }

  /** The inner loop of `get_pair_freq_counts` over one list: every
      adjacent pair of `k` gets 1 added. */
  method CountKeyPairs(counts0: PairCounts, k: Key) returns (counts: PairCounts)
    requires forall q :: q in counts0 ==> counts0[q] >= 1
    ensures forall q :: Get(counts, q) == Get(counts0, q) + Occ(k, q)
    ensures forall q :: q in counts ==> counts[q] >= 1
    ensures SumValues(counts) == SumValues(counts0) + Slack([k])
  {
    counts := counts0;
    var i := 0;
    while i < |k|
      invariant 0 <= i <= |k|
      invariant forall q :: Get(counts, q) == Get(counts0, q) + OccBefore(k, i, q)
      invariant forall q :: q in counts ==> counts[q] >= 1
      invariant SumValues(counts) == SumValues(counts0) + PositionsBefore(k, i)
    {
      var next := if i < |k| - 1 then Bump(counts, PairAt(k, i), 1) else counts;
      CountStep(counts0, counts, k, i, next);
      counts := next;
      i := i + 1;
    }
    assert k[..|k|] == k;
  }

  /** One step of the inner loop keeps its invariant. */
  lemma CountStep(counts0: PairCounts, counts: PairCounts, k: Key, i: nat, next: PairCounts)
    requires i < |k|
    requires forall q :: Get(counts, q) == Get(counts0, q) + OccBefore(k, i, q)
    requires forall q :: q in counts ==> counts[q] >= 1
    requires SumValues(counts) == SumValues(counts0) + PositionsBefore(k, i)
    requires next == if i < |k| - 1 then Bump(counts, PairAt(k, i), 1) else counts
    ensures forall q :: Get(next, q) == Get(counts0, q) + OccBefore(k, i + 1, q)
    ensures forall q :: q in next ==> next[q] >= 1
    ensures SumValues(next) == SumValues(counts0) + PositionsBefore(k, i + 1)
  {
    forall q
      ensures Get(next, q) == Get(counts0, q) + OccBefore(k, i + 1, q)
    {
      CountStepAt(counts0, counts, k, i, next, q);
    }
    if i < |k| - 1 {
      SumValuesBump(counts, PairAt(k, i), 1);
      forall q | q in next
        ensures next[q] >= 1
      {
        if q != PairAt(k, i) {
          assert Get(next, q) == Get(counts, q);
        }
      }
    }
  }

  /** The same step, for one pair. */
  lemma CountStepAt(counts0: PairCounts, counts: PairCounts, k: Key, i: nat, next: PairCounts, q: Pair)
    requires i < |k|
    requires Get(counts, q) == Get(counts0, q) + OccBefore(k, i, q)
    requires next == if i < |k| - 1 then Bump(counts, PairAt(k, i), 1) else counts
    ensures Get(next, q) == Get(counts0, q) + OccBefore(k, i + 1, q)
  {
    OccBeforeStep(k, i, q);
  }

  /** Extending the prefix of lists by one list adds its occurrences and
      its adjacent positions. */
  lemma PrefixStep(lists: seq<Key>, n: nat)
    requires n < |lists|
    ensures forall q :: OccAll(lists[..n + 1], q) == OccAll(lists[..n], q) + Occ(lists[n], q)
    ensures Slack(lists[..n + 1]) == Slack(lists[..n]) + Slack([lists[n]])
  {
    assert lists[..n + 1] == lists[..n] + [lists[n]];
    forall q
      ensures OccAll(lists[..n + 1], q) == OccAll(lists[..n], q) + Occ(lists[n], q)
    {
      OccAllConcat(lists[..n], [lists[n]], q);
    }
    SlackConcat(lists[..n], [lists[n]]);
  }

  /** `get_pair_freq_counts`: count every adjacent pair of every list, one
      list at a time. The result is the recount — only pairs inside one list
      are counted, each count is at least 1 — and the counts add up to the
      number of adjacent positions. */
  method GetPairFreqCounts(lists: seq<Key>) returns (counts: PairCounts)
    ensures counts == Recount(lists)
    ensures forall q :: q in counts ==> counts[q] >= 1
    ensures SumValues(counts) == Slack(lists)
  {
    counts := map[];
    var n := 0;
    while n < |lists|
      invariant 0 <= n <= |lists|
      invariant forall q :: Get(counts, q) == OccAll(lists[..n], q)
      invariant forall q :: q in counts ==> counts[q] >= 1
      invariant SumValues(counts) == Slack(lists[..n])
    {
      counts := CountKeyPairs(counts, lists[n]);
      PrefixStep(lists, n);
      n := n + 1;
    }
    assert lists[..n] == lists;
    RecountSpec(lists);
    assert forall q :: q in counts <==> q in Recount(lists);
  }

  /** One entry of the deduplicated pre-token table: a key and the number
      of times its pre-token occurs in the corpus. */
  datatype Entry = Entry(key: Key, freq: nat)

  /** The keys of a table spell pairwise different byte strings, and so
      are pairwise different. */
  predicate DistinctBytes(table: seq<Entry>) {
    forall i, j :: 0 <= i < j < |table| ==> Flatten(table[i].key) != Flatten(table[j].key)
  }

  /** The keys of a table, in table order. */
  function KeysOf(table: seq<Entry>): (keys: seq<Key>)
    ensures |keys| == |table|
    ensures forall i :: 0 <= i < |table| ==> keys[i] == table[i].key
  {
    seq(|table|, i requires 0 <= i < |table| => table[i].key)
  }

  /** The weighted occurrence count of `q`: every occurrence inside a key
      counts the key's frequency. */
  function WCount(table: seq<Entry>, q: Pair): nat {
    if |table| == 0 then 0 else table[0].freq * Occ(table[0].key, q) + WCount(table[1..], q)
  }

  /** `f` copies of one key. */
  function Repeat(k: Key, f: nat): (r: seq<Key>)
    ensures |r| == f
    ensures forall i :: 0 <= i < f ==> r[i] == k
  {
    seq(f, _ => k)
  }

  /** The table unfolded back into one list per pre-token occurrence, the
      shape `bpe.py` trains on. */
  function Expand(table: seq<Entry>): seq<Key> {
    if |table| == 0 then [] else Repeat(table[0].key, table[0].freq) + Expand(table[1..])
  }

  lemma {:induction false} OccAllRepeat(k: Key, f: nat, q: Pair)
    ensures OccAll(Repeat(k, f), q) == f * Occ(k, q)
  {
    if f > 0 {
      assert Repeat(k, f)[1..] == Repeat(k, f - 1);
      OccAllRepeat(k, f - 1, q);
    }
  }

  /** Counting the expanded table equals the weighted count of the table. */
  lemma {:induction false} ExpandCount(table: seq<Entry>, q: Pair)
    ensures OccAll(Expand(table), q) == WCount(table, q)
  {
    if |table| > 0 {
      OccAllConcat(Repeat(table[0].key, table[0].freq), Expand(table[1..]), q);
      OccAllRepeat(table[0].key, table[0].freq, q);
      ExpandCount(table[1..], q);
    }
  }

  /** Every frequency of the table is positive, as in a `Counter` of
      pre-tokens. */
  predicate PositiveFreqs(table: seq<Entry>) {
    forall i :: 0 <= i < |table| ==> table[i].freq > 0
  }

  /** With positive frequencies, a pair has a positive weighted count exactly
      when it occurs in some key. */
  lemma {:induction false} WCountPositive(table: seq<Entry>, q: Pair)
    requires PositiveFreqs(table)
    ensures WCount(table, q) > 0 <==> OccAll(KeysOf(table), q) > 0
  {
    if |table| > 0 {
      assert KeysOf(table)[1..] == KeysOf(table[1..]);
      WCountPositive(table[1..], q);
      if Occ(table[0].key, q) > 0 {
        assert table[0].freq * Occ(table[0].key, q) > 0;
      }
    }
  }

  /** The recount of the expanded table is the positive part of the
      weighted count. */
  lemma RecountExpand(table: seq<Entry>)
    ensures forall q :: Get(Recount(Expand(table)), q) == WCount(table, q)
    ensures forall q :: q in Recount(Expand(table)) <==> WCount(table, q) > 0
  {
    RecountSpec(Expand(table));
    forall q
      ensures OccAll(Expand(table), q) == WCount(table, q)
    {
      ExpandCount(table, q);
    }
  }

  /** The inner loop of the initial pair-table pass, from position `i`:
      every adjacent pair gets the key's frequency added, entries being
      created at 0 first. */
  function AddKeyPairs(k: Key, i: nat, f: int, pf: PairCounts): PairCounts
    decreases |k| - i
  {
    if i + 1 >= |k| then pf
    else
      var pair := PairAt(k, i);
      var created := if pair !in pf then pf[pair := 0] else pf;
      AddKeyPairs(k, i + 1, f, Bump(created, pair, f))
  }

  /** The initial pair-table pass over the pre-token table, in table order. */
  function InitialPairFreq(table: seq<Entry>, pf: PairCounts): PairCounts {
    if |table| == 0 then pf
    else InitialPairFreq(table[1..], AddKeyPairs(table[0].key, 0, table[0].freq, pf))
  }

  /** The pass from position `i` adds `f` per occurrence of `q` from there
      on, and creates `q` exactly when it occurs there. */
  lemma {:induction false} AddKeyPairsAt(k: Key, i: nat, f: int, pf: PairCounts, q: Pair)
    requires i <= |k|
    ensures Get(AddKeyPairs(k, i, f, pf), q) == Get(pf, q) + f * Occ(k[i..], q)
    ensures q in AddKeyPairs(k, i, f, pf) <==> q in pf || Occ(k[i..], q) > 0
    decreases |k| - i
  {
    if i + 1 < |k| {
      var pair := PairAt(k, i);
      var created := if pair !in pf then pf[pair := 0] else pf;
      var next := Bump(created, pair, f);
      assert Get(created, q) == Get(pf, q);
      AddKeyPairsAt(k, i + 1, f, next, q);
      assert AddKeyPairs(k, i, f, pf) == AddKeyPairs(k, i + 1, f, next);
      assert k[i..][1..] == k[i + 1..];
      var rest := Occ(k[i + 1..], q);
      if pair == q {
        assert Occ(k[i..], q) == 1 + rest;
        assert f * (1 + rest) == f + f * rest;
      } else {
        assert Occ(k[i..], q) == rest;
      }
    } else {
      assert Occ(k[i..], q) == 0;
    }
  }

  lemma AddKeyPairsSpec(k: Key, i: nat, f: int, pf: PairCounts)
    requires i <= |k|
    ensures forall q :: Get(AddKeyPairs(k, i, f, pf), q) == Get(pf, q) + f * Occ(k[i..], q)
    ensures forall q :: q in AddKeyPairs(k, i, f, pf) <==> q in pf || Occ(k[i..], q) > 0
  {
    forall q
      ensures Get(AddKeyPairs(k, i, f, pf), q) == Get(pf, q) + f * Occ(k[i..], q)
      ensures q in AddKeyPairs(k, i, f, pf) <==> q in pf || Occ(k[i..], q) > 0
    {
      AddKeyPairsAt(k, i, f, pf, q);
    }
  }

  /** Lines 85-91 of the optimised trainer: the initial pair table gives
      every pair the sum of the frequencies of all its occurrences, and it
      holds exactly the pairs that occur in some key (whatever their
      frequency). */
  lemma {:induction false} InitialPairFreqSpec(table: seq<Entry>, pf: PairCounts)
    ensures forall q :: Get(InitialPairFreq(table, pf), q) == Get(pf, q) + WCount(table, q)
    ensures forall q :: q in InitialPairFreq(table, pf) <==> q in pf || OccAll(KeysOf(table), q) > 0
  {
    if |table| > 0 {
      var next := AddKeyPairs(table[0].key, 0, table[0].freq, pf);
      AddKeyPairsSpec(table[0].key, 0, table[0].freq, pf);
      assert table[0].key[0..] == table[0].key;
      InitialPairFreqSpec(table[1..], next);
      assert KeysOf(table)[1..] == KeysOf(table[1..]);
    }
  }

  /** With positive frequencies the initial pair table is the recount of the
      expanded table. */
  lemma InitialPairFreqIsRecount(table: seq<Entry>)
    requires PositiveFreqs(table)
    ensures InitialPairFreq(table, map[]) == Recount(Expand(table))
  {
    var pf := InitialPairFreq(table, map[]);
    InitialPairFreqSpec(table, map[]);
    RecountExpand(table);
    forall q
      ensures q in pf <==> q in Recount(Expand(table))
    {
      WCountPositive(table, q);
    }
  }
}
