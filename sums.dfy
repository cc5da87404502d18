/**
 * Sums of the values of a finite map, in exact arithmetic: `Total` for
 * occurrence counts and `Mass` for probabilities.  The order in which the
 * keys are visited does not matter (TotalRemove, MassRemove).
 */
module Sums {

  /** The sum of all counts stored in `m`. */
  ghost function Total<K>(m: map<K, nat>): nat
    decreases |m.Keys|
  {
    if m == map[] then 0
    else
      var k :| k in m;
      assert |(m - {k}).Keys| < |m.Keys| by { assert (m - {k}).Keys == m.Keys - {k}; }
      m[k] + Total(m - {k})
  }

  /** The sum of all probabilities stored in `m`. */
  ghost function Mass<K>(m: map<K, real>): real
    decreases |m.Keys|
  {
    if m == map[] then 0.0
    else
      var k :| k in m;
      assert |(m - {k}).Keys| < |m.Keys| by { assert (m - {k}).Keys == m.Keys - {k}; }
      m[k] + Mass(m - {k})
  }

  /** Any key may be taken out first: the total does not depend on the order. */
  lemma {:induction false} TotalRemove<K>(m: map<K, nat>, k: K)
    requires k in m
    ensures Total(m) == m[k] + Total(m - {k})
    decreases |m.Keys|
  {
    var j :| j in m && Total(m) == m[j] + Total(m - {j});
    if j != k {
      assert (m - {j}).Keys == m.Keys - {j};
      assert (m - {k}).Keys == m.Keys - {k};
      TotalRemove(m - {j}, k);
      TotalRemove(m - {k}, j);
      assert m - {j} - {k} == m - {k} - {j};
    }
  }

  /** Any key may be taken out first: the mass does not depend on the order. */
  lemma {:induction false} MassRemove<K>(m: map<K, real>, k: K)
    requires k in m
    ensures Mass(m) == m[k] + Mass(m - {k})
    decreases |m.Keys|
  {
    var j :| j in m && Mass(m) == m[j] + Mass(m - {j});
    if j != k {
      assert (m - {j}).Keys == m.Keys - {j};
      assert (m - {k}).Keys == m.Keys - {k};
      MassRemove(m - {j}, k);
      MassRemove(m - {k}, j);
      assert m - {j} - {k} == m - {k} - {j};
    }
  }

  /** No single count exceeds the total. */
  lemma EntryAtMostTotal<K>(m: map<K, nat>, k: K)
    requires k in m
    ensures m[k] <= Total(m)
  {
    TotalRemove(m, k);
  }

  /** Storing `v` under `k` replaces the old count (or 0) by `v` in the total. */
  lemma TotalUpdate<K>(m: map<K, nat>, k: K, v: nat)
    ensures k in m ==> Total(m[k := v]) == Total(m) - m[k] + v
    ensures k !in m ==> Total(m[k := v]) == Total(m) + v
  {
    TotalRemove(m[k := v], k);
    if k in m {
      TotalRemove(m, k);
      assert m[k := v] - {k} == m - {k};
    } else {
      assert m[k := v] - {k} == m;
    }
  }

  /** Adding keys whose count is zero leaves the total unchanged. */
  lemma {:induction false} TotalZeroExtension<K>(small: map<K, nat>, big: map<K, nat>)
    requires small.Keys <= big.Keys
    requires forall k :: k in small ==> big[k] == small[k]
    requires forall k :: k in big && k !in small ==> big[k] == 0
    ensures Total(big) == Total(small)
    decreases |big.Keys|
  {
    if big.Keys <= small.Keys {
      assert big == small;
    } else {
      var k :| k in big && k !in small;
      TotalRemove(big, k);
      assert (big - {k}).Keys == big.Keys - {k};
      TotalZeroExtension(small, big - {k});
    }
  }

  /**
   * Add-one smoothing over a row of counts: if every probability is
   * (count + 1) / d, the probabilities add up to (total + number of keys) / d.
   */
  lemma {:induction false} MassOfSmoothedRow<K>(counts: map<K, nat>, probs: map<K, real>, d: real)
    requires d > 0.0
    requires probs.Keys == counts.Keys
    requires forall k :: k in probs ==> probs[k] == (counts[k] + 1) as real / d
    ensures Mass(probs) == (Total(counts) + |counts.Keys|) as real / d
    decreases |counts.Keys|
  {
    if counts == map[] {
      SmoothedRowEmpty(counts, probs, d);
    } else {
      var k :| k in counts;
      SmoothedRowRest(counts, probs, d, k);
      MassOfSmoothedRow(counts - {k}, probs - {k}, d);
      SmoothedRowStep(counts, probs, d, k);
    }
  }

  /** An empty row of counts gives an empty row of probabilities, of mass 0. */
  lemma SmoothedRowEmpty<K>(counts: map<K, nat>, probs: map<K, real>, d: real)
    requires d > 0.0 && counts == map[] && probs.Keys == counts.Keys
    ensures Mass(probs) == (Total(counts) + |counts.Keys|) as real / d
  {
    assert probs == map[];
  }

  /** Taking one key out of a smoothed row leaves a smoothed row with one key fewer. */
  lemma SmoothedRowRest<K>(counts: map<K, nat>, probs: map<K, real>, d: real, k: K)
    requires d > 0.0
    requires probs.Keys == counts.Keys && k in counts
    requires forall j :: j in probs ==> probs[j] == (counts[j] + 1) as real / d
    ensures (probs - {k}).Keys == (counts - {k}).Keys
    ensures |(counts - {k}).Keys| == |counts.Keys| - 1
    ensures forall j :: j in probs - {k} ==> (probs - {k})[j] == ((counts - {k})[j] + 1) as real / d
  {
    assert (counts - {k}).Keys == counts.Keys - {k};
    assert (probs - {k}).Keys == counts.Keys - {k};
  }

  /** The mass of a smoothed row is its first entry plus the mass of the rest. */
  lemma SmoothedRowStep<K>(counts: map<K, nat>, probs: map<K, real>, d: real, k: K)
    requires d > 0.0
    requires probs.Keys == counts.Keys && k in counts
    requires probs[k] == (counts[k] + 1) as real / d
    requires |(counts - {k}).Keys| == |counts.Keys| - 1
    requires Mass(probs - {k}) == (Total(counts - {k}) + |(counts - {k}).Keys|) as real / d
    ensures Mass(probs) == (Total(counts) + |counts.Keys|) as real / d
  {
    TotalRemove(counts, k);
    MassRemove(probs, k);
    var a := (counts[k] + 1) as real;
    var b := (Total(counts - {k}) + |(counts - {k}).Keys|) as real;
    DivAdd(a, b, (Total(counts) + |counts.Keys|) as real, d);
  }

  lemma DivAdd(a: real, b: real, c: real, d: real)
    requires d > 0.0 && a + b == c
    ensures a / d + b / d == c / d
  {
  }
}
