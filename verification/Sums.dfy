/** Sums of a map's values over a finite set of keys. */
module Sums {
  import opened Common

  ghost function Sum<K(!new)>(m: map<K, nat>, keys: set<K>): nat {
    if keys == {} then 0
    else
      var k :| k in keys;
      Get(m, k) + Sum(m, keys - {k})
  }

  /** Whichever key is taken out first, the sum is the same. */
  lemma {:induction false} SumTakeOut<K(!new)>(m: map<K, nat>, keys: set<K>, k: K)
    requires k in keys
    ensures Sum(m, keys) == Get(m, k) + Sum(m, keys - {k})
    decreases |keys|
  {
    var first :| first in keys && Sum(m, keys) == Get(m, first) + Sum(m, keys - {first});
    if first != k {
      SumTakeOut(m, keys - {first}, k);
      SumTakeOut(m, keys - {k}, first);
      assert keys - {first} - {k} == keys - {k} - {first};
    }
  }

  lemma {:induction false} SumDisjoint<K(!new)>(m: map<K, nat>, a: set<K>, b: set<K>)
    requires a !! b
    ensures Sum(m, a + b) == Sum(m, a) + Sum(m, b)
    decreases |a|
  {
    if a == {} {
      assert a + b == b;
    } else {
      var k :| k in a;
      SumTakeOut(m, a, k);
      SumTakeOut(m, a + b, k);
      assert a + b - {k} == (a - {k}) + b;
      SumDisjoint(m, a - {k}, b);
    }
  }

  /** Only the values at the listed keys matter. */
  lemma {:induction false} SumAgree<K(!new)>(m: map<K, nat>, m': map<K, nat>, keys: set<K>)
    requires forall k :: k in keys ==> Get(m, k) == Get(m', k)
    ensures Sum(m, keys) == Sum(m', keys)
    decreases |keys|
  {
    if keys != {} {
      var k :| k in keys;
      SumTakeOut(m, keys, k);
      SumTakeOut(m', keys, k);
      SumAgree(m, m', keys - {k});
    }
  }

  /** Raising one entry by one, present or not, raises the sum over the keys by one. */
  lemma SumOneMore<K(!new)>(m: map<K, nat>, m': map<K, nat>, k: K)
    requires m' == m[k := Get(m, k) + 1]
    ensures Sum(m', m'.Keys) == Sum(m, m.Keys) + 1
  {
    SumTakeOut(m', m'.Keys, k);
    assert m'.Keys - {k} == m.Keys - {k};
    SumAgree(m, m', m.Keys - {k});
    if k in m {
      SumTakeOut(m, m.Keys, k);
    } else {
      assert m.Keys - {k} == m.Keys;
    }
  }
}
