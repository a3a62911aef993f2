/** Sums over the entries of a map. */
module Sums {
  ghost function Sum<K(!new), V(!new)>(m: map<K, V>, weight: (K, V) -> nat): nat
    decreases |m|
  {
    if m == map[] then 0
    else
      var k :| k in m;
      weight(k, m[k]) + Sum(m - {k}, weight)
  }

  /** The sum does not depend on the order in which entries are taken. */
  lemma {:induction false} SumOut<K(!new), V(!new)>(m: map<K, V>, weight: (K, V) -> nat, k: K)
    requires k in m
    ensures Sum(m, weight) == weight(k, m[k]) + Sum(m - {k}, weight)
    decreases |m|
  {
    var first :| first in m && Sum(m, weight) == weight(first, m[first]) + Sum(m - {first}, weight);
    if first != k {
      SumOut(m - {first}, weight, k);
      assert m - {first} - {k} == m - {k} - {first};
      SumOut(m - {k}, weight, first);
    }
  }

  lemma SumPut<K(!new), V(!new)>(m: map<K, V>, weight: (K, V) -> nat, k: K, v: V)
    ensures Sum(m[k := v], weight) == weight(k, v) + Sum(m - {k}, weight)
    ensures k !in m ==> Sum(m - {k}, weight) == Sum(m, weight)
    ensures k in m ==> Sum(m, weight) == weight(k, m[k]) + Sum(m - {k}, weight)
  {
    SumOut(m[k := v], weight, k);
    assert m[k := v] - {k} == m - {k};
    if k in m {
      SumOut(m, weight, k);
    } else {
      assert m - {k} == m;
    }
  }

  /** Taking a set of keys out takes their part of the sum out. */
  lemma {:induction false} SumDrop<K(!new), V(!new)>(m: map<K, V>, weight: (K, V) -> nat, part: (K, V) -> nat,
                                                     keys: set<K>)
    requires forall k :: k in m ==> part(k, m[k]) == if k in keys then weight(k, m[k]) else 0
    ensures Sum(m, weight) == Sum(m - keys, weight) + Sum(m, part)
    decreases |m|
  {
    hide Sum;
    if m == map[] {
      assert m - keys == m;
      SumNothing(m, weight);
      SumNothing(m, part);
    } else {
      var k :| k in m;
      SumOut(m, weight, k);
      SumOut(m, part, k);
      SumDrop(m - {k}, weight, part, keys);
      if k in keys {
        assert m - {k} - keys == m - keys;
      } else {
        assert m - {k} - keys == (m - keys) - {k};
        SumOut(m - keys, weight, k);
      }
    }
  }

  lemma {:induction false} SumSame<K(!new), V(!new)>(m: map<K, V>, weight: (K, V) -> nat, other: (K, V) -> nat)
    requires forall k :: k in m ==> weight(k, m[k]) == other(k, m[k])
    ensures Sum(m, weight) == Sum(m, other)
    decreases |m|
  {
    if m != map[] {
      var k :| k in m;
      SumOut(m, weight, k);
      SumOut(m, other, k);
      SumSame(m - {k}, weight, other);
    }
  }

  lemma {:induction false} SumNothing<K(!new), V(!new)>(m: map<K, V>, weight: (K, V) -> nat)
    requires forall k :: k in m ==> weight(k, m[k]) == 0
    ensures Sum(m, weight) == 0
    decreases |m|
  {
    if m != map[] {
      var k :| k in m;
      SumOut(m, weight, k);
      SumNothing(m - {k}, weight);
    }
  }
}
