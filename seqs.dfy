/**
 * Collection helpers shared by the ballots and the tallies: distinctness,
 * the set of a list, filtering a declared candidate list by a set, and sums
 * of a per-candidate count map over a candidate list.
 */
module Seqs {
  import opened Types

  /** No element occurs twice. */
  predicate Distinct<T(==)>(s: seq<T>)
  {
    forall i, j :: 0 <= i < j < |s| ==> s[i] != s[j]
  }

  /** Python's `set(s)`. */
  function ToSet<T>(s: seq<T>): set<T>
  {
    set x | x in s
  }

  /**
   * `len(s) == len(set(s))` is exactly distinctness; a list is never
   * shorter than its set.
   */
  lemma {:induction false} DistinctCardinality<T>(s: seq<T>)
    ensures |ToSet(s)| <= |s|
    ensures Distinct(s) <==> |ToSet(s)| == |s|
  {
    if |s| > 0 {
      var init, x := s[..|s| - 1], s[|s| - 1];
      DistinctCardinality(init);
      assert s == init + [x];
      assert ToSet(s) == ToSet(init) + {x};
      if x in init {
        var k :| 0 <= k < |init| && init[k] == x;
        assert s[k] == s[|s| - 1];
        assert ToSet(s) == ToSet(init);
      } else {
        assert |ToSet(s)| == |ToSet(init)| + 1;
        if Distinct(init) {
          forall i, j | 0 <= i < j < |s| ensures s[i] != s[j] {
            if j == |s| - 1 {
              assert s[i] in init;
            } else {
              assert s[i] == init[i] && s[j] == init[j];
            }
          }
        } else {
          var i, j :| 0 <= i < j < |init| && init[i] == init[j];
          assert s[i] == s[j];
        }
      }
    }
  }

  /** A list of distinct elements drawn from `pool` is no longer than `pool`. */
  lemma {:induction false} DistinctWithin<T>(s: seq<T>, pool: set<T>)
    requires Distinct(s)
    requires forall x :: x in s ==> x in pool
    ensures |s| <= |pool|
  {
    DistinctCardinality(s);
    assert ToSet(s) <= pool;
    SubsetCardinality(ToSet(s), pool);
  }

  lemma {:induction false} SubsetCardinality<T>(a: set<T>, b: set<T>)
    requires a <= b
    ensures |a| <= |b|
  {
    assert b == a + (b - a);
  }

  /**
   * The members of `ids` that lie in `s`, in the order of `ids`: the
   * declared-candidate order in which the model lists a set of candidates.
   */
  function InOrder<T(!new)>(ids: seq<T>, s: set<T>): (r: seq<T>)
    ensures forall c :: c in r <==> c in ids && c in s
    ensures |r| <= |ids|
    ensures Distinct(ids) ==> Distinct(r)
  {
    if |ids| == 0 then []
    else
      var init := InOrder(ids[..|ids| - 1], s);
      var last := ids[|ids| - 1];
      assert forall c :: c in ids[..|ids| - 1] ==> c in ids;
      assert Distinct(ids) ==> last !in ids[..|ids| - 1];
      if last in s then init + [last] else init
  }

  /** The length of an ordered listing of a set of distinct candidates is the size of that set. */
  lemma {:induction false} InOrderLength<T(!new)>(ids: seq<T>, s: set<T>)
    requires Distinct(ids)
    ensures |InOrder(ids, s)| == |ToSet(ids) * s|
  {
    var r := InOrder(ids, s);
    DistinctCardinality(r);
    assert ToSet(r) == ToSet(ids) * s;
  }

  /** Sequences with the same elements have the same element set. */
  lemma {:induction false} SameElements<T>(a: seq<T>, b: seq<T>)
    requires forall x :: x in a <==> x in b
    ensures ToSet(a) == ToSet(b)
  {
  }

  /**
   * The distinct elements of `s` in order of first occurrence: the key order
   * of a dictionary built from `s`.
   */
  function Dedup<T(==,!new)>(s: seq<T>): (r: seq<T>)
    ensures forall x :: x in r <==> x in s
    ensures Distinct(r)
    ensures |r| <= |s|
    ensures Distinct(s) ==> r == s
  {
    if |s| == 0 then []
    else
      var init := s[..|s| - 1];
      var last := s[|s| - 1];
      assert forall x :: x in s <==> x in init || x == last;
      assert s == init + [last];
      if last in init then
        assert !Distinct(s) by {
          var i :| 0 <= i < |init| && init[i] == last;
          assert s[i] == s[|s| - 1];
        }
        Dedup(init)
      else Dedup(init) + [last]
  }

  /** `m.get(k, 0)` for a count map. */
  function Get<K>(m: map<K, int>, k: K): int
  {
    if k in m then m[k] else 0
  }

  /** The sum of the counts of the listed keys (absent keys count 0). */
  function SumOver<K>(keys: seq<K>, m: map<K, int>): int
  {
    if |keys| == 0 then 0 else SumOver(keys[..|keys| - 1], m) + Get(m, keys[|keys| - 1])
  }

  /** Incrementing one count by `d` moves the sum over distinct keys by `d` exactly when the key is listed. */
  lemma {:induction false} SumOverPointUpdate<K>(keys: seq<K>, m: map<K, int>, k: K, d: int)
    requires Distinct(keys)
    ensures SumOver(keys, m[k := Get(m, k) + d]) == SumOver(keys, m) + (if k in keys then d else 0)
  {
    if |keys| > 0 {
      var init := keys[..|keys| - 1];
      assert Distinct(init);
      SumOverPointUpdate(init, m, k, d);
      assert k in keys <==> k in init || k == keys[|keys| - 1];
      assert keys[|keys| - 1] !in init;
    }
  }

  /** Counts that are all zero sum to zero. */
  lemma {:induction false} SumOverZero<K>(keys: seq<K>, m: map<K, int>)
    requires forall c :: c in keys ==> Get(m, c) == 0
    ensures SumOver(keys, m) == 0
  {
    if |keys| > 0 {
      assert forall c :: c in keys[..|keys| - 1] ==> c in keys;
      SumOverZero(keys[..|keys| - 1], m);
    }
  }

  /**
   * Adding one to the count of every key in `a` moves the sum over distinct
   * keys by the number of listed keys in `a`.
   */
  lemma {:induction false} SumOverAddOnes<K>(keys: seq<K>, m: map<K, int>, m2: map<K, int>, a: set<K>)
    requires Distinct(keys)
    requires forall c :: c in keys ==> Get(m2, c) == Get(m, c) + (if c in a then 1 else 0)
    ensures SumOver(keys, m2) == SumOver(keys, m) + |ToSet(keys) * a|
  {
    if |keys| == 0 {
      assert ToSet(keys) * a == {};
    } else {
      var init, last := keys[..|keys| - 1], keys[|keys| - 1];
      assert forall c :: c in init ==> c in keys;
      assert Distinct(init);
      SumOverAddOnes(init, m, m2, a);
      assert last !in init;
      ListedInStep(keys, a);
    }
  }

  /** Taking one more distinct key adds one to the number of listed keys in `a` exactly when it lies in `a`. */
  lemma {:induction false} ListedInStep<K>(keys: seq<K>, a: set<K>)
    requires |keys| > 0
    requires keys[|keys| - 1] !in keys[..|keys| - 1]
    ensures |ToSet(keys) * a| == |ToSet(keys[..|keys| - 1]) * a| + (if keys[|keys| - 1] in a then 1 else 0)
  {
    var init, last := keys[..|keys| - 1], keys[|keys| - 1];
    assert keys == init + [last];
    var before := ToSet(init) * a;
    if last in a {
      assert ToSet(keys) * a == before + {last};
    } else {
      assert ToSet(keys) * a == before;
    }
  }

  /** Counts bounded by `hi` sum to at most `hi` per key. */
  lemma {:induction false} SumOverAtMost<K>(keys: seq<K>, m: map<K, int>, hi: int)
    requires forall c :: c in keys ==> Get(m, c) <= hi
    ensures SumOver(keys, m) <= hi * |keys|
  {
    if |keys| > 0 {
      var init := keys[..|keys| - 1];
      assert forall c :: c in init ==> c in keys;
      SumOverAtMost(init, m, hi);
      assert hi * |keys| == hi * |init| + hi;
    }
  }

  /** Sums over the same keys of maps that agree on those keys are equal. */
  lemma {:induction false} SumOverAgree<K>(keys: seq<K>, m1: map<K, int>, m2: map<K, int>)
    requires forall c :: c in keys ==> Get(m1, c) == Get(m2, c)
    ensures SumOver(keys, m1) == SumOver(keys, m2)
  {
    if |keys| > 0 {
      SumOverAgree(keys[..|keys| - 1], m1, m2);
    }
  }

  /** A sum of non-negative counts over distinct keys is at least the counts of any two of them. */
  lemma {:induction false} SumOverAtLeast<K>(keys: seq<K>, m: map<K, int>, a: K, b: K)
    requires Distinct(keys)
    requires forall c :: c in keys ==> Get(m, c) >= 0
    requires a in keys
    ensures SumOver(keys, m) >= Get(m, a)
    ensures b in keys && a != b ==> SumOver(keys, m) >= Get(m, a) + Get(m, b)
  {
    var init, last := keys[..|keys| - 1], keys[|keys| - 1];
    assert forall c :: c in init ==> c in keys;
    assert Distinct(init);
    SumOverNonNegative(init, m);
    if a == last {
      assert a !in init;
      if b in keys && a != b {
        assert b in init;
        SumOverAtLeast(init, m, b, b);
      }
    } else {
      assert a in init;
      SumOverAtLeast(init, m, a, b);
      if b in keys && a != b && b != last {
        assert b in init;
      }
    }
  }

  lemma {:induction false} SumOverNonNegative<K>(keys: seq<K>, m: map<K, int>)
    requires forall c :: c in keys ==> Get(m, c) >= 0
    ensures SumOver(keys, m) >= 0
  {
    if |keys| > 0 {
      assert forall c :: c in keys[..|keys| - 1] ==> c in keys;
      SumOverNonNegative(keys[..|keys| - 1], m);
    }
  }
}
