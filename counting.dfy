/**
 * Occurrence counters as the trigram model keeps them: a dictionary from a
 * key to a count, read with `d.get(k, 0)` and bumped with
 * `d[k] = d.get(k, 0) + 1`.
 */
module Counting {
  import opened Sums

  /** `m.get(k, 0)`. */
  function Get<K>(m: map<K, nat>, k: K): nat
  {
    if k in m then m[k] else 0
  }

  /** `m[k] = m.get(k, 0) + 1`: one more occurrence of `k`, nothing else changes. */
  function Inc<K(!new)>(m: map<K, nat>, k: K): (r: map<K, nat>)
    ensures r.Keys == m.Keys + {k}
    ensures Get(r, k) == Get(m, k) + 1
    ensures forall j {:trigger Get(r, j)} :: j != k ==> Get(r, j) == Get(m, j)
  {
    m[k := Get(m, k) + 1]
  }

  /** Counting the first `n` keys of `ks` in order, on top of the counts already in `m`. */
  function AddFirst<K(!new)>(m: map<K, nat>, ks: seq<K>, n: nat): map<K, nat>
    requires n <= |ks|
  {
    if n == 0 then m else Inc(AddFirst(m, ks, n - 1), ks[n - 1])
  }

  /** Counting every key of `ks` in order, on top of the counts already in `m`. */
  function AddAll<K(!new)>(m: map<K, nat>, ks: seq<K>): map<K, nat>
  {
    AddFirst(m, ks, |ks|)
  }

  /** Counting one more key of `ks` bumps that key's count by one. */
  lemma AddFirstNext<K(!new)>(m: map<K, nat>, ks: seq<K>, n: nat, k: K)
    requires n < |ks| && ks[n] == k
    ensures AddFirst(m, ks, n + 1) == AddFirst(m, ks, n)[k := Get(AddFirst(m, ks, n), k) + 1]
  {
  }

  lemma {:induction false} AddFirstCount<K(!new)>(m: map<K, nat>, ks: seq<K>, n: nat, k: K)
    requires n <= |ks|
    ensures Get(AddFirst(m, ks, n), k) == Get(m, k) + multiset(ks[..n])[k]
  {
    if n > 0 {
      assert ks[..n] == ks[..n - 1] + [ks[n - 1]];
      AddFirstCount(m, ks, n - 1, k);
    }
  }

  /** After counting `ks`, each key's count has grown by its number of occurrences in `ks`. */
  lemma AddAllCount<K(!new)>(m: map<K, nat>, ks: seq<K>, k: K)
    ensures Get(AddAll(m, ks), k) == Get(m, k) + multiset(ks)[k]
  {
    AddFirstCount(m, ks, |ks|, k);
    assert ks[..|ks|] == ks;
  }

  lemma {:induction false} AddFirstKeys<K(!new)>(m: map<K, nat>, ks: seq<K>, n: nat)
    requires n <= |ks|
    ensures AddFirst(m, ks, n).Keys == m.Keys + set i | 0 <= i < n :: ks[i]
  {
    if n > 0 {
      AddFirstKeys(m, ks, n - 1);
      assert (set i | 0 <= i < n :: ks[i]) == (set i | 0 <= i < n - 1 :: ks[i]) + {ks[n - 1]};
    }
  }

  /** After counting `ks`, the keys are the old keys plus those of `ks`. */
  lemma AddAllKeys<K(!new)>(m: map<K, nat>, ks: seq<K>)
    ensures AddAll(m, ks).Keys == m.Keys + set k | k in ks
  {
    AddFirstKeys(m, ks, |ks|);
    assert (set i | 0 <= i < |ks| :: ks[i]) == set k | k in ks by {
      forall k | k in ks ensures k in set i | 0 <= i < |ks| :: ks[i] {
        var i :| 0 <= i < |ks| && ks[i] == k;
      }
    }
  }

  lemma {:induction false} AddFirstTotal<K(!new)>(m: map<K, nat>, ks: seq<K>, n: nat)
    requires n <= |ks|
    ensures Total(AddFirst(m, ks, n)) == Total(m) + n
  {
    if n > 0 {
      AddFirstTotal(m, ks, n - 1);
      var before := AddFirst(m, ks, n - 1);
      TotalUpdate(before, ks[n - 1], Get(before, ks[n - 1]) + 1);
    }
  }

  /** Counting `ks` adds exactly `|ks|` to the sum of all counts. */
  lemma AddAllTotal<K(!new)>(m: map<K, nat>, ks: seq<K>)
    ensures Total(AddAll(m, ks)) == Total(m) + |ks|
  {
    AddFirstTotal(m, ks, |ks|);
  }

  /** Counting never lowers a count. */
  lemma AddAllMonotone<K(!new)>(m: map<K, nat>, ks: seq<K>)
    ensures forall k :: Get(m, k) <= Get(AddAll(m, ks), k)
  {
    forall k ensures Get(m, k) <= Get(AddAll(m, ks), k) {
      AddAllCount(m, ks, k);
    }
  }
}
