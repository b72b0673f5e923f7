/** The node store of the multi-tenant radix tree, its structural invariant, and
    the per-tenant set of strings that the tree stands for. */
module RadixNodes {
  import opened Options
  import opened MapSums
  import opened Tenants
  import opened Text

  type NodeId = nat

  const ROOT: NodeId := 0

  datatype Node = Node(
    text: string,
    children: map<char, NodeId>,
    tenants: map<Tenant, nat>,
    parent: Option<NodeId>,
    lastTenant: Option<Tenant>)

  type Store = map<NodeId, Node>

  /** Root-to-node strings; `PathsUnique` shows that the store determines them. */
  type Paths = map<NodeId, string>

  // ---------- structural invariant ----------

  /** Every child link of `n` leads to a node that points back and starts with the link's char. */
  ghost predicate ChildLinks(s: Store, n: NodeId)
    requires n in s
  {
    forall c :: c in s[n].children ==>
      var m := s[n].children[c];
      m in s && m != ROOT && s[m].parent == Some(n) && |s[m].text| > 0 && s[m].text[0] == c
  }

  /** `m` hangs below its parent: matching links, a non-empty text, owners drawn from the parent's. */
  ghost predicate Hangs(s: Store, p: Paths, m: NodeId)
    requires m in s
  {
    && s[m].parent.Some?
    && var q := s[m].parent.value;
    && q in s && q in p && m in p
    && |s[m].text| > 0
    && s[m].text[0] in s[q].children && s[q].children[s[m].text[0]] == m
    && p[m] == p[q] + s[m].text
    && s[m].tenants.Keys <= s[q].tenants.Keys
    && s[m].tenants != map[]
  }

  ghost predicate LinksOk(s: Store) {
    forall n {:trigger ChildLinks(s, n)} :: n in s ==> ChildLinks(s, n)
  }

  ghost predicate HangsOk(s: Store, p: Paths) {
    forall n {:trigger Hangs(s, p, n)} :: n in s && n != ROOT ==> Hangs(s, p, n)
  }

  /** The invariant of every reachable tree. */
  ghost predicate Wf(s: Store, p: Paths) {
    && ROOT in s && p.Keys == s.Keys
    && s[ROOT].text == "" && s[ROOT].parent.None? && p[ROOT] == ""
    && LinksOk(s) && HangsOk(s, p)
  }

  /** The paths are a function of the store. */
  lemma {:induction false} PathsUnique(s: Store, p: Paths, p': Paths, n: NodeId)
    requires Wf(s, p) && Wf(s, p') && n in s
    ensures p[n] == p'[n]
    decreases |p[n]|
  {
    if n != ROOT {
      assert Hangs(s, p, n) && Hangs(s, p', n);
      PathsUnique(s, p, p', s[n].parent.value);
    }
  }

  // ---------- the strings that lie on a node ----------

  ghost function Start(s: Store, p: Paths, n: NodeId): (k: nat)
    requires Wf(s, p) && n in s && n != ROOT
    ensures k + |s[n].text| == |p[n]|
  {
    assert Hangs(s, p, n);
    |p[s[n].parent.value]|
  }

  /** `x` ends inside the text of `n`. */
  ghost predicate On(s: Store, p: Paths, n: NodeId, x: string)
    requires Wf(s, p) && n in s && n != ROOT
  {
    Start(s, p, n) < |x| && x <= p[n]
  }

  /** A string ends on at most one node. */
  lemma {:induction false} OnUnique(s: Store, p: Paths, n: NodeId, m: NodeId, x: string)
    requires Wf(s, p) && n in s && n != ROOT && m in s && m != ROOT
    requires On(s, p, n, x) && On(s, p, m, x)
    ensures n == m
    decreases |x|
  {
    assert Hangs(s, p, n) && Hangs(s, p, m);
    var q, r := s[n].parent.value, s[m].parent.value;
    assert p[q] <= x && p[r] <= x;
    if |p[q]| > |p[r]| {
      OnAtEnd(s, p, q);
      OnUnique(s, p, q, m, p[q]);
    } else if |p[r]| > |p[q]| {
      OnAtEnd(s, p, r);
      OnUnique(s, p, r, n, p[r]);
    } else if q != r {
      assert p[q] == p[r];
      assert q != ROOT ==> Hangs(s, p, q);
      assert r != ROOT ==> Hangs(s, p, r);
      OnUnique(s, p, q, r, p[q]);
    } else {
      assert x[|p[q]|] == s[n].text[0] == s[m].text[0];
    }
  }

  lemma OnAtEnd(s: Store, p: Paths, n: NodeId)
    requires Wf(s, p) && n in s && |p[n]| > 0
    ensures n != ROOT && On(s, p, n, p[n])
  {
    assert Hangs(s, p, n);
  }

  /** Distinct nodes have distinct paths. */
  lemma PathsInjective(s: Store, p: Paths, n: NodeId, m: NodeId)
    requires Wf(s, p) && n in s && m in s && p[n] == p[m]
    ensures n == m
  {
    if n != ROOT || m != ROOT {
      assert n != ROOT ==> Hangs(s, p, n);
      assert m != ROOT ==> Hangs(s, p, m);
      OnUnique(s, p, n, m, p[n]);
    }
  }

  /** Every non-empty prefix of a path ends on some node, owned by at least the same tenants. */
  lemma {:induction false} OnExists(s: Store, p: Paths, m: NodeId, x: string) returns (n: NodeId)
    requires Wf(s, p) && m in s && x <= p[m] && x != ""
    ensures n in s && n != ROOT && On(s, p, n, x)
    ensures s[m].tenants.Keys <= s[n].tenants.Keys
    decreases |p[m]|
  {
    assert m != ROOT && Hangs(s, p, m);
    if Start(s, p, m) < |x| {
      n := m;
    } else {
      n := OnExists(s, p, s[m].parent.value, x);
    }
  }

  // ---------- the language of a tenant ----------

  /** All prefixes of the paths of the nodes owned by `t`. */
  ghost function Lang(s: Store, p: Paths, t: Tenant): set<string>
    requires p.Keys == s.Keys
  {
    set n, k | n in s && t in s[n].tenants && 0 <= k <= |p[n]| :: p[n][..k]
  }

  ghost predicate Spells(s: Store, p: Paths, t: Tenant, n: NodeId, x: string)
    requires p.Keys == s.Keys
  {
    n in s && t in s[n].tenants && x <= p[n]
  }

  lemma LangMember(s: Store, p: Paths, t: Tenant, x: string)
    requires p.Keys == s.Keys
    ensures x in Lang(s, p, t) <==> exists n :: Spells(s, p, t, n, x)
  {
    if n :| Spells(s, p, t, n, x) {
      assert x == p[n][..|x|];
    }
    if x in Lang(s, p, t) {
      var n, k :| n in s && t in s[n].tenants && 0 <= k <= |p[n]| && x == p[n][..k];
      assert Spells(s, p, t, n, x);
    }
  }

  // ---------- sizes ----------

  /** Text lengths of the nodes owned by `t`. */
  ghost function Weights(s: Store, t: Tenant): map<NodeId, nat> {
    map n | n in s && t in s[n].tenants :: |s[n].text|
  }

  /** What a traversal that adds up the text of every node owned by `t` yields. */
  ghost function OwnedSize(s: Store, t: Tenant): nat {
    Sum(Weights(s, t))
  }

  /** The strings that end on `n`, none for the root. */
  ghost function StringsOn(s: Store, p: Paths, n: NodeId): set<string>
    requires Wf(s, p) && n in s
  {
    if n == ROOT then {} else set k | Start(s, p, n) < k <= |p[n]| :: p[n][..k]
  }

  lemma StringsOnMember(s: Store, p: Paths, n: NodeId, x: string)
    requires Wf(s, p) && n in s
    ensures x in StringsOn(s, p, n) <==> n != ROOT && On(s, p, n, x)
  {
    if n != ROOT && On(s, p, n, x) {
      assert x == p[n][..|x|];
    }
  }

  lemma StringsOnCard(s: Store, p: Paths, n: NodeId)
    requires Wf(s, p) && n in s
    ensures |StringsOn(s, p, n)| == |s[n].text|
  {
    if n != ROOT {
      PrefixRangeCard(p[n], Start(s, p, n), |p[n]|);
    }
  }

  ghost function StringsOnAll(s: Store, p: Paths, ns: set<NodeId>): set<string>
    requires Wf(s, p) && ns <= s.Keys
  {
    set n, x | n in ns && x in StringsOn(s, p, n) :: x
  }

  lemma StringsOnDisjoint(s: Store, p: Paths, n: NodeId, ns: set<NodeId>)
    requires Wf(s, p) && ns <= s.Keys && n in s && n !in ns
    ensures StringsOn(s, p, n) !! StringsOnAll(s, p, ns)
  {
    forall x | x in StringsOn(s, p, n) && x in StringsOnAll(s, p, ns)
      ensures false
    {
      var m :| m in ns && x in StringsOn(s, p, m);
      StringsOnMember(s, p, n, x);
      StringsOnMember(s, p, m, x);
      OnUnique(s, p, n, m, x);
    }
  }

  /** The strings on a set of nodes are as many as the chars those nodes hold. */
  lemma {:induction false} StringsOnAllCard(s: Store, p: Paths, w: map<NodeId, nat>)
    requires Wf(s, p) && w.Keys <= s.Keys
    requires forall n :: n in w ==> w[n] == |s[n].text|
    ensures |StringsOnAll(s, p, w.Keys)| == Sum(w)
    decreases |w|
  {
    if w == map[] {
      assert StringsOnAll(s, p, w.Keys) == {};
    } else {
      var n := Pick(w);
      var v := w - {n};
      StringsOnAllCard(s, p, v);
      SumAt(w, n);
      StringsOnCard(s, p, n);
      StringsOnDisjoint(s, p, n, v.Keys);
      StringsOnAllSplit(s, p, w.Keys, n);
      assert v.Keys == w.Keys - {n};
    }
  }

  lemma StringsOnAllSplit(s: Store, p: Paths, ns: set<NodeId>, n: NodeId)
    requires Wf(s, p) && ns <= s.Keys && n in ns
    ensures StringsOnAll(s, p, ns) == StringsOn(s, p, n) + StringsOnAll(s, p, ns - {n})
  {
  }

  /** A non-empty string of a language ends on a node that the tenant owns, and conversely. */
  lemma LangOn(s: Store, p: Paths, t: Tenant, x: string)
    requires Wf(s, p) && x != ""
    ensures x in Lang(s, p, t) <==>
            exists n :: n in s && t in s[n].tenants && n != ROOT && On(s, p, n, x)
  {
    LangMember(s, p, t, x);
    if m :| Spells(s, p, t, m, x) {
      var n := OnExists(s, p, m, x);
    }
    if n :| n in s && t in s[n].tenants && n != ROOT && On(s, p, n, x) {
      assert Spells(s, p, t, n, x);
    }
  }

  /** The chars a tenant owns are the non-empty strings of its language. */
  lemma LangCard(s: Store, p: Paths, t: Tenant)
    requires Wf(s, p)
    ensures |Lang(s, p, t) - {""}| == OwnedSize(s, t)
  {
    var w := Weights(s, t);
    StringsOnAllCard(s, p, w);
    forall x ensures x in Lang(s, p, t) - {""} <==> x in StringsOnAll(s, p, w.Keys) {
      if x != "" {
        LangOn(s, p, t, x);
      }
      forall n | n in s { StringsOnMember(s, p, n, x); }
    }
    assert Lang(s, p, t) - {""} == StringsOnAll(s, p, w.Keys);
  }

  // ---------- leaves ----------

  predicate ChildOwned(s: Store, n: NodeId, t: Tenant)
    requires n in s
  {
    exists c :: c in s[n].children && s[n].children[c] in s && t in s[s[n].children[c]].tenants
  }

  /** `n` is owned by `t` and none of its children is. */
  predicate Leaf(s: Store, n: NodeId, t: Tenant) {
    n in s && t in s[n].tenants && !ChildOwned(s, n, t)
  }

  /** A tenant that owns a node has a leaf at or below it. */
  lemma {:induction false} LeafExists(s: Store, p: Paths, n: NodeId, t: Tenant, rest: set<NodeId>)
    returns (l: NodeId)
    requires Wf(s, p) && n in s && t in s[n].tenants
    requires rest <= s.Keys && forall m :: m in s && |p[m]| >= |p[n]| ==> m in rest
    ensures Leaf(s, l, t) && p[n] <= p[l]
    decreases |rest|
  {
    if ChildOwned(s, n, t) {
      var c :| c in s[n].children && s[n].children[c] in s && t in s[s[n].children[c]].tenants;
      var m := s[n].children[c];
      assert ChildLinks(s, n) && Hangs(s, p, m);
      l := LeafExists(s, p, m, t, rest - {n});
    } else {
      l := n;
    }
  }

  lemma LeafBelow(s: Store, p: Paths, n: NodeId, t: Tenant) returns (l: NodeId)
    requires Wf(s, p) && n in s && t in s[n].tenants
    ensures Leaf(s, l, t) && p[n] <= p[l]
  {
    l := LeafExists(s, p, n, t, s.Keys);
  }
}
