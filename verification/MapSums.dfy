/** Sums of the values of a finite map, independent of any enumeration order. */
module MapSums {

  ghost function Pick<K>(w: map<K, nat>): (k: K)
    requires w != map[]
    ensures k in w
  {
    var k :| k in w; k
  }

  ghost function Sum<K>(w: map<K, nat>): nat
    decreases |w|
  {
    if w == map[] then 0 else w[Pick(w)] + Sum(w - {Pick(w)})
  }

  /** Any key may be taken out first. */
  lemma {:induction false} SumAt<K>(w: map<K, nat>, k: K)
    requires k in w
    ensures Sum(w) == w[k] + Sum(w - {k})
    decreases |w|
  {
    var j := Pick(w);
    if j != k {
      SumAt(w - {j}, k);
      SumAt(w - {k}, j);
      assert w - {j} - {k} == w - {k} - {j};
    }
  }

  lemma SumInsert<K>(w: map<K, nat>, k: K, v: nat)
    requires k !in w
    ensures Sum(w[k := v]) == Sum(w) + v
  {
    SumAt(w[k := v], k);
    assert w[k := v] - {k} == w;
  }

  lemma {:induction false} SumZero<K>(w: map<K, nat>, k: K)
    requires Sum(w) == 0 && k in w
    ensures w[k] == 0
  {
    SumAt(w, k);
  }
}
