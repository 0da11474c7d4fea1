/** Totals over finite maps. */
module MapSums {
  ghost function Sum<K>(m: map<K, nat>): nat
    decreases |m|
  {
    if |m| == 0 then 0
    else
      var k :| k in m;
      assert |m - {k}| < |m| by { assert (m - {k}).Keys == m.Keys - {k}; }
      m[k] + Sum(m - {k})
  }

  lemma Picked<K>(m: map<K, nat>) returns (j: K)
    requires |m| != 0
    ensures j in m && Sum(m) == m[j] + Sum(m - {j})
  {
    j :| j in m && Sum(m) == m[j] + Sum(m - {j});
  }

  lemma RemoveBoth<K>(m: map<K, nat>, j: K, k: K)
    requires j in m && k in m && j != k
    ensures m - {j} - {k} == m - {k} - {j} && |m - {j}| < |m| && |m - {k}| < |m|
    ensures k in m - {j} && (m - {j})[k] == m[k] && j in m - {k} && (m - {k})[j] == m[j]
  {
    assert (m - {j}).Keys == m.Keys - {j} && (m - {k}).Keys == m.Keys - {k};
  }

  lemma {:induction false} SumRemove<K>(m: map<K, nat>, k: K)
    requires k in m
    ensures Sum(m) == m[k] + Sum(m - {k})
    decreases |m|
  {
    hide Sum;
    var j := Picked(m);
    if j != k {
      RemoveBoth(m, j, k);
      SumRemove(m - {j}, k);
      SumRemove(m - {k}, j);
    }
  }

  lemma SumUpdate<K>(m: map<K, nat>, k: K, v: nat)
    ensures Sum(m[k := v]) == Sum(m) - (if k in m then m[k] else 0) + v
  {
    hide Sum;
    SumRemove(m[k := v], k);
    assert m[k := v] - {k} == m - {k};
    if k in m { SumRemove(m, k); } else { assert m - {k} == m; }
  }

  lemma SumWithout<K>(m: map<K, nat>, k: K)
    ensures Sum(m - {k}) == Sum(m) - (if k in m then m[k] else 0)
  {
    hide Sum;
    if k in m { SumRemove(m, k); } else { assert m - {k} == m; }
  }

  lemma SumAtLeast<K>(m: map<K, nat>, k: K)
    requires k in m
    ensures m[k] <= Sum(m)
  {
    SumRemove(m, k);
  }
}
