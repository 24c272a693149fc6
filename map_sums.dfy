/**
 * Sums over the values of a dictionary (`sum(d.values())`,
 * `sum(v * v for v in d.values())`). A dictionary is a `map`, which has no
 * order, so the sum picks its keys one at a time and is a ghost definition;
 * the lemmas show that the order of picking does not matter.
 */
module MapSums {

  /** Some member of a non-empty set. */
  ghost function Pick<K>(s: set<K>): K
    requires s != {}
  {
    var x :| x in s; x
  }

  /** The identity weight: `sum(d.values())`. */
  function Plain(v: int): int { v }

  /** The quadratic weight: `sum(v * v for v in d.values())`. */
  function Square(v: int): int { v * v }

  /** The sum of `f` over the values of `m`. */
  ghost function SumOf<K>(m: map<K, int>, f: int -> int): int
    decreases |m|
  {
    if |m| == 0 then 0
    else
      var k := Pick(m.Keys);
      f(m[k]) + SumOf(m - {k}, f)
  }

  /** Any key can be taken out first. */
  lemma {:induction false} SumOfRemove<K>(m: map<K, int>, f: int -> int, k: K)
    requires k in m
    ensures SumOf(m, f) == f(m[k]) + SumOf(m - {k}, f)
    decreases |m|
  {
    var j := Pick(m.Keys);
    if j != k {
      SumOfRemove(m - {j}, f, k);
      SumOfRemove(m - {k}, f, j);
      assert m - {j} - {k} == m - {k} - {j};
    }
  }

  /** Adding a fresh key adds its weight. */
  lemma {:induction false} SumOfAdd<K>(m: map<K, int>, f: int -> int, k: K, v: int)
    requires k !in m
    ensures SumOf(m[k := v], f) == f(v) + SumOf(m, f)
  {
    SumOfRemove(m[k := v], f, k);
    assert m[k := v] - {k} == m;
  }

  /** Weights that lie in `[lo, hi]` give a sum in `[lo * |m|, hi * |m|]`. */
  lemma {:induction false} SumOfBounds<K>(m: map<K, int>, f: int -> int, lo: int, hi: int)
    requires forall k :: k in m ==> lo <= f(m[k]) <= hi
    ensures lo * |m| <= SumOf(m, f) <= hi * |m|
    decreases |m|
  {
    if |m| > 0 {
      var k := Pick(m.Keys);
      var rest := m - {k};
      assert rest.Keys == m.Keys - {k};
      var n := |rest|;
      assert |m| == n + 1;
      assert forall j :: j in rest ==> j in m && rest[j] == m[j];
      SumOfBounds(rest, f, lo, hi);
      assert SumOf(m, f) == f(m[k]) + SumOf(rest, f);
      MulSucc(lo, n);
      MulSucc(hi, n);
    }
  }

  lemma {:induction false} MulSucc(a: int, n: int)
    ensures a * (n + 1) == a * n + a
  {
  }

  /** With non-negative weights, a sub-dictionary never sums to more. */
  lemma {:induction false} SumOfSubmap<K>(sub: map<K, int>, m: map<K, int>, f: int -> int)
    requires forall k :: k in sub ==> k in m && sub[k] == m[k]
    requires forall k :: k in m ==> f(m[k]) >= 0
    ensures SumOf(sub, f) <= SumOf(m, f)
    decreases |sub|
  {
    if |sub| == 0 {
      SumOfBounds(m, f, 0, MaxWeight(m, f));
    } else {
      var k := Pick(sub.Keys);
      SumOfRemove(sub, f, k);
      SumOfRemove(m, f, k);
      SumOfSubmap(sub - {k}, m - {k}, f);
    }
  }

  /** A bound on every weight of `m` (used only to state non-negativity of a sum). */
  ghost function MaxWeight<K>(m: map<K, int>, f: int -> int): (w: int)
    ensures forall k :: k in m ==> f(m[k]) <= w
    decreases |m|
  {
    if |m| == 0 then 0
    else
      var k := Pick(m.Keys);
      var rest := MaxWeight(m - {k}, f);
      assert forall j :: j in m ==> j == k || j in m - {k};
      if f(m[k]) > rest then f(m[k]) else rest
  }

  /** With non-negative weights, every single weight is at most the sum. */
  lemma {:induction false} SumOfAtLeast<K>(m: map<K, int>, f: int -> int, k: K)
    requires forall j :: j in m ==> f(m[j]) >= 0
    requires k in m
    ensures f(m[k]) <= SumOf(m, f)
  {
    SumOfSubmap(map[k := m[k]], m, f);
    SumOfAdd(map[], f, k, m[k]);
  }
}
