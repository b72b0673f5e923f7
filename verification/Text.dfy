/** Strings as sequences of chars: common prefixes. */
module Text {

  /** The number of leading chars that two strings share. */
  function SharedPrefixCount(a: string, b: string): (k: nat)
    ensures k <= |a| && k <= |b| && a[..k] == b[..k]
    ensures k < |a| && k < |b| ==> a[k] != b[k]
  {
    if a == "" || b == "" || a[0] != b[0] then 0
    else
      var k := SharedPrefixCount(a[1..], b[1..]);
      assert a[..k + 1] == [a[0]] + a[1..][..k];
      assert b[..k + 1] == [b[0]] + b[1..][..k];
      k + 1
  }

  ghost function Prefixes(x: string): set<string> {
    set k | 0 <= k <= |x| :: x[..k]
  }

  lemma PrefixesMember(x: string, y: string)
    ensures y in Prefixes(x) <==> y <= x
  {
    if y <= x { assert y == x[..|y|]; }
  }

  lemma PrefixesOfEmpty()
    ensures Prefixes("") == {""}
  {
    forall y ensures y in Prefixes("") <==> y == "" { PrefixesMember("", y); }
  }

  lemma PrefixesMonotone(x: string, y: string)
    requires x <= y
    ensures Prefixes(x) <= Prefixes(y)
  {
    forall z | z in Prefixes(x) ensures z in Prefixes(y) {
      PrefixesMember(x, z);
      PrefixesMember(y, z);
    }
  }

  lemma {:induction false} PrefixRangeCard(x: string, lo: nat, hi: nat)
    requires lo <= hi <= |x|
    ensures |set k | lo < k <= hi :: x[..k]| == hi - lo
    decreases hi
  {
    var S := set k | lo < k <= hi :: x[..k];
    if lo == hi {
      assert S == {};
    } else {
      var R := set k | lo < k <= hi - 1 :: x[..k];
      PrefixRangeCard(x, lo, hi - 1);
      assert S == R + {x[..hi]};
      assert forall y :: y in R ==> |y| < hi;
      assert x[..hi] !in R;
    }
  }

  /** A text adds at most one new non-empty prefix per char. */
  lemma PrefixesCard(x: string)
    ensures |Prefixes(x) - {""}| == |x|
  {
    PrefixRangeCard(x, 0, |x|);
    assert Prefixes(x) - {""} == set k | 0 < k <= |x| :: x[..k];
  }

  lemma Rejoin(a: string, rest: string, k: nat)
    requires k <= |rest|
    ensures (a + rest[..k]) + rest[k..] == a + rest
  {
  }
}
