/**
 * Counting over finite collections: the occurrence table that pandas'
 * `value_counts()` and `groupby(...).size()` produce, and the sum of the
 * values of a count table, used to state the sum identities between the
 * dashboard's aggregates.
 */
module Counting {

  /** The sum of the values of a finite map, taken in no particular key order. */
  ghost function SumValues<K>(m: map<K, nat>): nat
    decreases |m|
  {
    if m == map[] then 0
    else
      var k :| k in m;
      assert |(m - {k}).Keys| < |m.Keys| by {
        assert m.Keys == (m - {k}).Keys + {k};
      }
      m[k] + SumValues(m - {k})
  }

  /** Any key can be taken out first: the sum does not depend on the order. */
  lemma {:induction false} SumValuesPick<K>(m: map<K, nat>, k: K)
    requires k in m
    ensures SumValues(m) == m[k] + SumValues(m - {k})
    decreases |m|
  {
    var j :| j in m && SumValues(m) == m[j] + SumValues(m - {j});
    if j != k {
      var mj, mk := m - {j}, m - {k};
      assert |mj.Keys| < |m.Keys| by { assert m.Keys == mj.Keys + {j}; }
      assert |mk.Keys| < |m.Keys| by { assert m.Keys == mk.Keys + {k}; }
      SumValuesPick(mj, k);
      SumValuesPick(mk, j);
      assert mj - {k} == mk - {j};
    }
  }

  /** Setting one key to `v` replaces that key's share of the sum by `v`. */
  lemma {:induction false} SumValuesUpdate<K>(m: map<K, nat>, k: K, v: nat)
    ensures SumValues(m[k := v]) == SumValues(m - {k}) + v
    ensures k in m ==> SumValues(m) == SumValues(m - {k}) + m[k]
    ensures k !in m ==> SumValues(m[k := v]) == SumValues(m) + v
  {
    SumValuesPick(m[k := v], k);
    assert m[k := v] - {k} == m - {k};
    if k in m {
      SumValuesPick(m, k);
    } else {
      assert m - {k} == m;
    }
  }

  /** Adding keys whose value is zero leaves the sum unchanged. */
  lemma {:induction false} SumValuesZeroExtension<K>(small: map<K, nat>, big: map<K, nat>)
    requires small.Keys <= big.Keys
    requires forall k :: k in small ==> big[k] == small[k]
    requires forall k :: k in big && k !in small ==> big[k] == 0
    ensures SumValues(big) == SumValues(small)
    decreases |big|
  {
    if big == map[] {
      assert small == map[];
    } else {
      var k :| k in big;
      SumValuesPick(big, k);
      assert |(big - {k}).Keys| < |big.Keys| by { assert big.Keys == (big - {k}).Keys + {k}; }
      if k in small {
        SumValuesPick(small, k);
        SumValuesZeroExtension(small - {k}, big - {k});
      } else {
        SumValuesZeroExtension(small, big - {k});
      }
    }
  }

  /**
   * The occurrence table of a sequence: one key per distinct element, whose
   * value is how many times that element occurs. Elements are counted one
   * at a time, left to right, as a hash-table count does.
   */
  function ValueCounts<T(!new)>(s: seq<T>): (counts: map<T, nat>)
    ensures forall x :: x in counts <==> x in s
    ensures forall x :: x in counts ==> counts[x] == multiset(s)[x] >= 1
  {
    if s == [] then map[]
    else
      var init, x := s[..|s| - 1], s[|s| - 1];
      assert s == init + [x];
      var prefix := ValueCounts(init);
      prefix[x := if x in prefix then prefix[x] + 1 else 1]
  }

  /** The counts of a table sum to the length of the counted sequence. */
  lemma {:induction false} ValueCountsSum<T(!new)>(s: seq<T>)
    ensures SumValues(ValueCounts(s)) == |s|
  {
    if s != [] {
      var init, x := s[..|s| - 1], s[|s| - 1];
      assert s == init + [x];
      var prefix := ValueCounts(init);
      ValueCountsSum(init);
      var v := if x in prefix then prefix[x] + 1 else 1;
      assert ValueCounts(s) == prefix[x := v];
      SumValuesUpdate(prefix, x, v);
    }
  }

  /**
   * A table whose keys cover the elements of `s`, agrees with the occurrence
   * counts of `s` and holds zero everywhere else sums to `|s|`.
   */
  lemma CountTableSum<T(!new)>(s: seq<T>, table: map<T, nat>)
    requires forall x :: x in s ==> x in table
    requires forall x :: x in table ==> table[x] == multiset(s)[x]
    ensures SumValues(table) == |s|
  {
    var counts := ValueCounts(s);
    forall x | x in table && x !in counts ensures table[x] == 0 {
      assert x !in s;
    }
    SumValuesZeroExtension(counts, table);
    ValueCountsSum(s);
  }
}
