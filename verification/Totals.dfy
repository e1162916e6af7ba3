/** Sums over finite maps, and their sizes. */
module Totals {

  /** The sum of a map's values. */
  ghost function Total<K>(m: map<K, nat>): nat
    decreases m.Keys
  {
    if m.Keys == {} then 0
    else
      var k :| k in m.Keys;
      m[k] + Total(m - {k})
  }

  /** Any key may be summed first. */
  lemma {:induction false} TotalRemove<K>(m: map<K, nat>, k: K)
    requires k in m
    ensures Total(m) == m[k] + Total(m - {k})
    decreases m.Keys
  {
    var j :| j in m.Keys && Total(m) == m[j] + Total(m - {j});
    if j != k {
      RemoveBoth(m, j, k);
    }
  }

  lemma {:induction false} RemoveBoth<K>(m: map<K, nat>, j: K, k: K)
    requires j in m && k in m && j != k
    ensures m[j] + Total(m - {j}) == m[k] + Total(m - {k})
    decreases m.Keys, 0
  {
    hide Total;
    TotalRemove(m - {j}, k);
    TotalRemove(m - {k}, j);
    assert m - {j} - {k} == m - {k} - {j};
  }

  lemma TotalAdd<K>(m: map<K, nat>, k: K, v: nat)
    requires k !in m
    ensures Total(m[k := v]) == Total(m) + v
  {
    hide Total;
    TotalRemove(m[k := v], k);
    assert m[k := v] - {k} == m;
  }

  /** Removing a key that may be absent. */
  lemma TotalWithout<K>(m: map<K, nat>, k: K)
    ensures Total(m - {k}) == Total(m) - (if k in m then m[k] else 0)
  {
    hide Total;
    if k in m {
      TotalRemove(m, k);
    } else {
      assert m - {k} == m;
    }
  }

  /** A part of a map weighs no more than the map. */
  lemma {:induction false} TotalPart<K>(m: map<K, nat>, keys: set<K>)
    ensures Total(m - keys) <= Total(m)
    decreases keys
  {
    hide Total;
    if keys == {} {
      assert m - {} == m;
    } else {
      var k :| k in keys;
      TotalPart(m, keys - {k});
      TotalWithout(m - (keys - {k}), k);
      assert m - (keys - {k}) - {k} == m - keys;
    }
  }

  lemma {:induction false} TotalDisjoint<K>(m: map<K, nat>, n: map<K, nat>)
    requires m.Keys !! n.Keys
    ensures Total(m + n) == Total(m) + Total(n)
    decreases n.Keys
  {
    if n.Keys == {} {
      assert m + n == m;
    } else {
      var k :| k in n.Keys;
      hide Total;
      TotalDisjoint(m, n - {k});
      assert (m + n) - {k} == m + (n - {k});
      TotalRemove(m + n, k);
      TotalRemove(n, k);
    }
  }

  /** A map with fewer keys is smaller. */
  lemma SubmapSize<K, V, W>(small: map<K, V>, big: map<K, W>)
    requires small.Keys <= big.Keys
    ensures |small| <= |big|
    ensures small.Keys != big.Keys ==> |small| < |big|
  {
    var rest := big.Keys - small.Keys;
    assert big.Keys == small.Keys + rest && small.Keys !! rest;
    assert |big.Keys| == |small.Keys| + |rest|;
    if small.Keys != big.Keys {
      var k :| k in rest;
    }
  }

  lemma UnionUpdate<K, V>(m: map<K, V>, n: map<K, V>, k: K, v: V)
    ensures m + n[k := v] == (m + n)[k := v]
  {
  }

}
