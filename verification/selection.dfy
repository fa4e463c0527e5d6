/** Python's ordering of byte strings and of pairs of byte strings, and the
    selection of the merge pair: the maximum of a pair-count table under the
    key `(count, pair)`. */
module Selection {
  import opened Bytes

  /** `a < b` on Python `bytes`: lexicographic on byte values, and a proper
      prefix sorts before the longer string. */
  predicate TokenLess(a: Token, b: Token)
    decreases |a|
  {
    if |a| == 0 then |b| > 0
    else if |b| == 0 then false
    else a[0] < b[0] || (a[0] == b[0] && TokenLess(a[1..], b[1..]))
  }

  /** `x < y` on Python 2-tuples of `bytes`: first components first, then
      the second components. */
  predicate PairLess(x: Pair, y: Pair) {
    TokenLess(x.first, y.first) || (x.first == y.first && TokenLess(x.second, y.second))
  }

  lemma {:induction false} TokenLessIrreflexive(a: Token)
    ensures !TokenLess(a, a)
  {
    if |a| > 0 {
      TokenLessIrreflexive(a[1..]);
    }
  }

  lemma {:induction false} TokenLessTransitive(a: Token, b: Token, c: Token)
    requires TokenLess(a, b) && TokenLess(b, c)
    ensures TokenLess(a, c)
    decreases |a|
  {
    if |a| > 0 && a[0] == b[0] && b[0] == c[0] {
      TokenLessTransitive(a[1..], b[1..], c[1..]);
    }
  }

  /** Any two distinct byte strings are comparable. */
  lemma {:induction false} TokenLessTotal(a: Token, b: Token)
    ensures a == b || TokenLess(a, b) || TokenLess(b, a)
    decreases |a|
  {
    if |a| > 0 && |b| > 0 && a[0] == b[0] {
      TokenLessTotal(a[1..], b[1..]);
      if a[1..] == b[1..] {
        assert a == [a[0]] + a[1..] && b == [b[0]] + b[1..];
      }
    }
  }

  lemma TokenLessAsymmetric(a: Token, b: Token)
    requires TokenLess(a, b)
    ensures !TokenLess(b, a)
  {
    if TokenLess(b, a) {
      TokenLessTransitive(a, b, a);
      TokenLessIrreflexive(a);
    }
  }

  /** Pair comparison is a strict total order: irreflexive, transitive and
      total, so a maximum under it is unique. */
  lemma PairLessStrictTotalOrder(x: Pair, y: Pair, z: Pair)
    ensures !PairLess(x, x)
    ensures PairLess(x, y) && PairLess(y, z) ==> PairLess(x, z)
    ensures x == y || PairLess(x, y) || PairLess(y, x)
    ensures PairLess(x, y) ==> !PairLess(y, x)
  {
    TokenLessIrreflexive(x.first);
    TokenLessIrreflexive(x.second);
    if PairLess(x, y) && PairLess(y, z) {
      if TokenLess(x.first, y.first) && TokenLess(y.first, z.first) {
        TokenLessTransitive(x.first, y.first, z.first);
      }
      if x.first == y.first && y.first == z.first {
        TokenLessTransitive(x.second, y.second, z.second);
      }
    }
    TokenLessTotal(x.first, y.first);
    TokenLessTotal(x.second, y.second);
    if PairLess(x, y) {
      if TokenLess(x.first, y.first) {
        TokenLessAsymmetric(x.first, y.first);
      } else {
        TokenLessAsymmetric(x.second, y.second);
      }
    }
  }

  /** `y` beats `x` under the key `(m[.], .)`: a higher count, or an equal
      count and a greater pair. */
  predicate Outranks(m: map<Pair, int>, y: Pair, x: Pair)
    requires x in m && y in m
  {
    m[x] < m[y] || (m[x] == m[y] && PairLess(x, y))
  }

  /** `y` is the maximum of `m` under the key `(count, pair)`. */
  predicate IsTop(m: map<Pair, int>, y: Pair) {
    y in m && forall x :: x in m && x != y ==> Outranks(m, y, x)
  }

  lemma OutranksTransitive(m: map<Pair, int>, x: Pair, y: Pair, z: Pair)
    requires x in m && y in m && z in m
    requires Outranks(m, y, x) && Outranks(m, z, y)
    ensures Outranks(m, z, x)
  {
    PairLessStrictTotalOrder(x, y, z);
  }

  /** Every non-empty part of a count table has a maximum. */
  lemma {:induction false} TopExists(m: map<Pair, int>, s: set<Pair>)
    requires s <= m.Keys && s != {}
    ensures exists y :: y in s && forall x :: x in s && x != y ==> Outranks(m, y, x)
    decreases s
  {
    var z :| z in s;
    if s != {z} {
      TopExists(m, s - {z});
      var y :| y in s - {z} && forall x :: x in s - {z} && x != y ==> Outranks(m, y, x);
      PairLessStrictTotalOrder(y, z, y);
      if Outranks(m, y, z) {
        assert forall x :: x in s && x != y ==> Outranks(m, y, x);
      } else {
        assert Outranks(m, z, y);
        forall x | x in s && x != z
          ensures Outranks(m, z, x)
        {
          if x != y {
            OutranksTransitive(m, x, y, z);
          }
        }
      }
    }
  }

  /** There is at most one maximum, so the selection does not depend on the
      order in which the table is iterated. */
  lemma TopUnique(m: map<Pair, int>, y: Pair, z: Pair)
    requires IsTop(m, y) && IsTop(m, z)
    ensures y == z
  {
    if y != z {
      PairLessStrictTotalOrder(y, z, y);
    }
  }

  /** `max(m, key=lambda k: (m[k], k))`: the pair with the highest count,
      ties broken towards the greatest pair. */
  function Top(m: map<Pair, int>): (top: Pair)
    requires |m| > 0
    ensures top in m
    ensures forall x :: x in m && x != top ==> m[x] < m[top] || (m[x] == m[top] && PairLess(x, top))
  {
    assert m.Keys != {} by {
      var x :| x in m;
    }
    assert exists y :: IsTop(m, y) by {
      TopExists(m, m.Keys);
      var w :| w in m.Keys && forall x :: x in m.Keys && x != w ==> Outranks(m, w, x);
      assert IsTop(m, w);
    }
    assert forall y, z :: IsTop(m, y) && IsTop(m, z) ==> y == z by {
      forall y, z | IsTop(m, y) && IsTop(m, z)
        ensures y == z
      {
        TopUnique(m, y, z);
      }
    }
    var top :| IsTop(m, top);
    top
  }

  /** Pairs whose count is zero or below never beat a pair with a positive
      count: when some count is positive, the maximum of the whole table is
      the maximum of its positive part. */
  lemma TopOfPositivePart(m: map<Pair, int>, pos: map<Pair, int>)
    requires forall x :: x in pos <==> x in m && m[x] > 0
    requires forall x :: x in pos ==> pos[x] == m[x]
    requires |pos| > 0
    ensures |m| > 0 && Top(m) == Top(pos)
  {
    var p :| p in pos;
    assert p in m;
    var t := Top(m);
    assert m[t] >= m[p] > 0;
    assert IsTop(pos, t);
    TopUnique(pos, t, Top(pos));
  }
}
