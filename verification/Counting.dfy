/** Counting the entries of a map that satisfy a condition. */
module Counting {

  ghost function Where<K, V>(m: map<K, V>, p: V -> bool): set<K> {
    set k | k in m && p(m[k])
  }

  ghost function Count<K, V>(m: map<K, V>, p: V -> bool): nat {
    |Where(m, p)|
  }

  ghost function One(b: bool): nat { if b then 1 else 0 }

  /** Setting one entry changes the count by that entry alone. */
  lemma CountUpdate<K, V>(m: map<K, V>, p: V -> bool, k: K, v: V)
    ensures Count(m[k := v], p) + One(k in m && p(m[k])) == Count(m, p) + One(p(v))
  {
    var s, s' := Where(m, p), Where(m[k := v], p);
    assert s' - {k} == s - {k};
    assert k in s <==> k in m && p(m[k]);
    assert k in s' <==> p(v);
    assert |s - {k}| == |s| - One(k in s);
    assert |s' - {k}| == |s'| - One(k in s');
  }

  lemma CountPositive<K, V>(m: map<K, V>, p: V -> bool, k: K)
    requires k in m && p(m[k])
    ensures Count(m, p) > 0
  {
    assert k in Where(m, p);
  }

  lemma CountNone<K, V>(m: map<K, V>, p: V -> bool)
    ensures (forall k :: k in m ==> !p(m[k])) ==> Count(m, p) == 0
  {
    if forall k :: k in m ==> !p(m[k]) { assert Where(m, p) == {}; }
  }

  /** Distinct members of a set are no more than the set. */
  lemma {:induction false} DistinctWithin<K>(xs: seq<K>, s: set<K>)
    requires forall i, j :: 0 <= i < j < |xs| ==> xs[i] != xs[j]
    requires forall x :: x in xs ==> x in s
    ensures |xs| <= |s|
  {
    if xs != [] {
      var x := xs[0];
      forall y | y in xs[1..] ensures y in s - {x} {
        var i :| 0 <= i < |xs[1..]| && xs[1..][i] == y;
        assert xs[i + 1] == y && xs[0] != xs[i + 1];
      }
      DistinctWithin(xs[1..], s - {x});
    }
  }
}
