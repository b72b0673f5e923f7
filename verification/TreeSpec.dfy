/** What the radix tree stands for: per tenant a prefix-closed set of strings, plus the
    set of tenants that have a size on record. Every tree operation is a step on this. */
module TreeSpec {
  import opened Tenants
  import opened Text

  datatype Abstract = Abstract(langs: map<Tenant, set<string>>, counted: set<Tenant>)

  const EMPTY := Abstract(map[], {})

  ghost function LangOf(a: Abstract, t: Tenant): set<string> {
    if t in a.langs then a.langs[t] else {}
  }

  /** The number of distinct non-empty strings of `t`. */
  ghost function SizeOf(a: Abstract, t: Tenant): nat {
    |LangOf(a, t) - {""}|
  }

  ghost predicate PrefixClosed(l: set<string>) {
    forall x, y :: y in l && x <= y ==> x in l
  }

  /** Invariant of every reachable abstract state. Only the sentinel may be present without a
      recorded size, and then it holds just the empty string. */
  ghost predicate Consistent(a: Abstract) {
    && a.counted <= a.langs.Keys <= a.counted + {SENTINEL}
    && (forall t :: t in a.langs ==> "" in a.langs[t] && PrefixClosed(a.langs[t]))
    && (forall t :: t in a.langs && t !in a.counted ==> a.langs[t] == {""})
  }

  // ---------- the operations ----------

  ghost function Inserted(a: Abstract, text: string, t: Tenant): Abstract {
    Abstract(a.langs[t := LangOf(a, t) + Prefixes(text)], a.counted + {t})
  }

  /** Capped insertion is admitted unless the budget is zero or already used up. */
  ghost predicate Admits(a: Abstract, t: Tenant, max: nat) {
    max > 0 && (t in a.counted ==> SizeOf(a, t) < max)
  }

  ghost function Removed(a: Abstract, t: Tenant): Abstract {
    Abstract(a.langs - {t}, a.counted - {t})
  }

  /** Matching leaves everything alone, except that every eighth match on a tree without
      owners records the sentinel. */
  ghost function Matched(a: Abstract, epoch: nat): Abstract {
    if a.langs == map[] && epoch % 8 == 0 then a.(langs := map[SENTINEL := {""}]) else a
  }

  /** `k` is the length of the longest prefix of `text` that any tenant holds. */
  ghost predicate Longest(a: Abstract, text: string, k: nat) {
    && k <= |text|
    && (k > 0 ==> exists t :: text[..k] in LangOf(a, t))
    && forall t, x :: x in LangOf(a, t) && x <= text ==> |x| <= k
  }

  /** `k` is the length of the longest prefix of `text` that `t` holds. */
  ghost predicate LongestFor(a: Abstract, t: Tenant, text: string, k: nat) {
    && k <= |text|
    && (k > 0 ==> text[..k] in LangOf(a, t))
    && forall x :: x in LangOf(a, t) && x <= text ==> |x| <= k
  }

  ghost predicate WithinBudget(a: Abstract, t: Tenant, max: nat) {
    t in a.counted && SizeOf(a, t) <= max
  }

  /** Eviction leaves tenants within budget alone, shrinks the others to the budget, and
      forgets a sentinel that has no recorded size. */
  ghost predicate Evicted(a: Abstract, max: nat, b: Abstract) {
    && b.counted == a.counted
    && b.langs.Keys == a.counted
    && forall t :: t in a.counted ==>
         && "" in LangOf(b, t) && PrefixClosed(LangOf(b, t))
         && LangOf(b, t) <= LangOf(a, t)
         && SizeOf(b, t) <= max
         && (WithinBudget(a, t, max) ==> LangOf(b, t) == LangOf(a, t))
  }

  // ---------- consequences ----------

  /** The tenant found by a match gets the same answer from a match restricted to it. */
  lemma MatchesAgree(a: Abstract, text: string, k: nat, t: Tenant, j: nat)
    requires Longest(a, text, k) && LongestFor(a, t, text, j)
    requires k > 0 ==> text[..k] in LangOf(a, t)
    ensures j == k
  {
    if j > 0 {
      assert text[..j] in LangOf(a, t) && text[..j] <= text;
    }
  }

  /** Right after an insert both kinds of match find the whole text. */
  lemma InsertThenMatch(a: Abstract, text: string, t: Tenant, k: nat, j: nat)
    requires Longest(Inserted(a, text, t), text, k)
    requires LongestFor(Inserted(a, text, t), t, text, j)
    ensures k == |text| && j == |text|
  {
    var b := Inserted(a, text, t);
    PrefixesMember(text, text);
    assert text in LangOf(b, t) && text <= text;
  }

  lemma UnionCard(l: set<string>, m: set<string>)
    ensures |l| <= |l + m| <= |l| + |m|
  {
    assert l + m == l + (m - l);
    assert m == (m - l) + (m * l);
  }

  /** An insert grows the size by at most the length of its text. */
  lemma SizeGrowth(a: Abstract, text: string, t: Tenant)
    ensures SizeOf(a, t) <= SizeOf(Inserted(a, text, t), t) <= SizeOf(a, t) + |text|
  {
    PrefixesCard(text);
    var l, m := LangOf(a, t) - {""}, Prefixes(text) - {""};
    assert LangOf(Inserted(a, text, t), t) - {""} == l + m;
    UnionCard(l, m);
  }

  /** A tenant without a recorded size has no text. */
  lemma UncountedIsEmpty(a: Abstract, t: Tenant)
    requires Consistent(a) && t !in a.counted
    ensures SizeOf(a, t) == 0
  {
    assert LangOf(a, t) - {""} == {};
  }

  /** Admission is about the size alone, whether or not the tenant has a record. */
  lemma AdmitsExactly(a: Abstract, t: Tenant, max: nat)
    requires Consistent(a)
    ensures Admits(a, t, max) <==> SizeOf(a, t) < max
  {
    if t !in a.counted { UncountedIsEmpty(a, t); }
  }
}
