/** The elementary changes the tree operations make to the node store, and what each
    does to the structure, to every tenant's language and to every tenant's size. */
module RadixSteps {
  import opened Tenants
  import opened Options
  import opened MapSums
  import opened RadixNodes
  import opened Text

  // ---------- languages under change ----------

  /** Every path owned by `t` in the first store is spelled by `t` in the second. */
  ghost predicate Covers(s: Store, p: Paths, s': Store, p': Paths, t: Tenant)
    requires p.Keys == s.Keys && p'.Keys == s'.Keys
  {
    forall n :: n in s && t in s[n].tenants ==> exists m :: Spells(s', p', t, m, p[n])
  }

  lemma LangSubset(s: Store, p: Paths, s': Store, p': Paths, t: Tenant)
    requires p.Keys == s.Keys && p'.Keys == s'.Keys && Covers(s, p, s', p', t)
    ensures Lang(s, p, t) <= Lang(s', p', t)
  {
    forall x | x in Lang(s, p, t) ensures x in Lang(s', p', t) {
      LangMember(s, p, t, x);
      LangMember(s', p', t, x);
      var n :| Spells(s, p, t, n, x);
      var m :| Spells(s', p', t, m, p[n]);
      assert Spells(s', p', t, m, x);
    }
  }

  /** A new owned path adds exactly its prefixes. */
  lemma LangGrows(s: Store, p: Paths, s': Store, p': Paths, t: Tenant, id: NodeId)
    requires p.Keys == s.Keys && p'.Keys == s'.Keys
    requires Covers(s, p, s', p', t)
    requires id in s' && t in s'[id].tenants
    requires forall n :: n in s' && n != id && t in s'[n].tenants ==> n in s && t in s[n].tenants && p[n] == p'[n]
    ensures Lang(s', p', t) == Lang(s, p, t) + Prefixes(p'[id])
  {
    LangSubset(s, p, s', p', t);
    forall x ensures x in Lang(s', p', t) <==> x in Lang(s, p, t) + Prefixes(p'[id]) {
      LangMember(s, p, t, x);
      LangMember(s', p', t, x);
      PrefixesMember(p'[id], x);
      if n :| Spells(s', p', t, n, x) {
        assert n != id ==> Spells(s, p, t, n, x);
      }
      if x <= p'[id] {
        assert Spells(s', p', t, id, x);
      }
    }
  }

  /** Weights by their entries. */
  lemma WeightsAre(s: Store, u: Tenant, w: map<NodeId, nat>)
    requires forall n :: n in w <==> n in s && u in s[n].tenants
    requires forall n :: n in w ==> w[n] == |s[n].text|
    ensures Weights(s, u) == w
  {
  }

  // ---------- a new leaf ----------

  function AddLeaf(s: Store, q: NodeId, id: NodeId, text: string, t: Tenant, e: nat): Store
    requires q in s && text != ""
  {
    s[id := Node(text, map[], map[t := e], Some(q), Some(t))]
     [q := s[q].(children := s[q].children[text[0] := id])]
  }

  lemma AddLeafLinks(s: Store, p: Paths, q: NodeId, id: NodeId, text: string, t: Tenant, e: nat, n: NodeId)
    requires Wf(s, p) && q in s && id !in s && text != "" && (n in s || n == id)
    ensures ChildLinks(AddLeaf(s, q, id, text, t, e), n)
  {
    assert n in s ==> ChildLinks(s, n);
  }

  lemma AddLeafHangs(s: Store, p: Paths, q: NodeId, id: NodeId, text: string, t: Tenant, e: nat, n: NodeId)
    requires Wf(s, p) && q in s && id !in s && text != "" && text[0] !in s[q].children
    requires t in s[q].tenants && (n in s || n == id) && n != ROOT
    ensures Hangs(AddLeaf(s, q, id, text, t, e), p[id := p[q] + text], n)
  {
    if n in s {
      assert Hangs(s, p, n);
    } else {
      assert t in AddLeaf(s, q, id, text, t, e)[id].tenants;
    }
  }

  lemma AddLeafAllLinks(s: Store, p: Paths, q: NodeId, id: NodeId, text: string, t: Tenant, e: nat)
    requires Wf(s, p) && q in s && id !in s && text != ""
    ensures LinksOk(AddLeaf(s, q, id, text, t, e))
  {
    forall n | n in AddLeaf(s, q, id, text, t, e) ensures ChildLinks(AddLeaf(s, q, id, text, t, e), n) {
      AddLeafLinks(s, p, q, id, text, t, e, n);
    }
  }

  lemma AddLeafAllHangs(s: Store, p: Paths, q: NodeId, id: NodeId, text: string, t: Tenant, e: nat)
    requires Wf(s, p) && q in s && id !in s && text != "" && text[0] !in s[q].children
    requires t in s[q].tenants
    ensures HangsOk(AddLeaf(s, q, id, text, t, e), p[id := p[q] + text])
  {
    var s', p' := AddLeaf(s, q, id, text, t, e), p[id := p[q] + text];
    forall n | n in s' && n != ROOT ensures Hangs(s', p', n) {
      AddLeafHangs(s, p, q, id, text, t, e, n);
    }
  }

  lemma AddLeafWf(s: Store, p: Paths, q: NodeId, id: NodeId, text: string, t: Tenant, e: nat)
    requires Wf(s, p) && q in s && id !in s && text != "" && text[0] !in s[q].children
    requires t in s[q].tenants
    ensures Wf(AddLeaf(s, q, id, text, t, e), p[id := p[q] + text])
  {
    AddLeafAllLinks(s, p, q, id, text, t, e);
    AddLeafAllHangs(s, p, q, id, text, t, e);
  }

  lemma AddLeafLang(s: Store, p: Paths, q: NodeId, id: NodeId, text: string, t: Tenant, e: nat, u: Tenant)
    requires Wf(s, p) && q in s && id !in s && text != ""
    ensures var s', p' := AddLeaf(s, q, id, text, t, e), p[id := p[q] + text];
            Lang(s', p', u) == Lang(s, p, u) + (if u == t then Prefixes(p[q] + text) else {})
  {
    var s', p' := AddLeaf(s, q, id, text, t, e), p[id := p[q] + text];
    forall n | n in s && u in s[n].tenants ensures exists m :: Spells(s', p', u, m, p[n]) {
      assert Spells(s', p', u, n, p[n]);
    }
    if u == t {
      LangGrows(s, p, s', p', u, id);
    } else {
      forall n | n in s' && u in s'[n].tenants ensures exists m :: Spells(s, p, u, m, p'[n]) {
        assert Spells(s, p, u, n, p'[n]);
      }
      LangSubset(s, p, s', p', u);
      LangSubset(s', p', s, p, u);
    }
  }

  lemma AddLeafSize(s: Store, q: NodeId, id: NodeId, text: string, t: Tenant, e: nat, u: Tenant)
    requires q in s && id !in s && text != ""
    ensures OwnedSize(AddLeaf(s, q, id, text, t, e), u) == OwnedSize(s, u) + if u == t then |text| else 0
  {
    AddLeafWeights(s, q, id, text, t, e, u);
    if u == t {
      SumInsert(Weights(s, u), id, |text|);
    }
  }

  lemma AddLeafWeights(s: Store, q: NodeId, id: NodeId, text: string, t: Tenant, e: nat, u: Tenant)
    requires q in s && id !in s && text != ""
    ensures Weights(AddLeaf(s, q, id, text, t, e), u) ==
            if u == t then Weights(s, u)[id := |text|] else Weights(s, u)
  {
    var s' := AddLeaf(s, q, id, text, t, e);
    var w := if u == t then Weights(s, u)[id := |text|] else Weights(s, u);
    forall n
      ensures n in w <==> n in s' && u in s'[n].tenants
      ensures n in w ==> w[n] == |s'[n].text|
    {
    }
    WeightsAre(s', u, w);
  }

  // ---------- splitting a node ----------

  /** Put a fresh node holding the first `k` chars of `m` between `m` and its parent. */
  function Split(s: Store, m: NodeId, k: nat, id: NodeId): Store
    requires m in s && s[m].parent.Some? && s[m].parent.value in s && 0 < k < |s[m].text|
  {
    var q, x := s[m].parent.value, s[m].text;
    s[id := Node(x[..k], map[x[k] := m], s[m].tenants, Some(q), s[m].lastTenant)]
     [q := s[q].(children := s[q].children[x[0] := id])]
     [m := s[m].(text := x[k..], parent := Some(id))]
  }

  ghost function SplitPaths(s: Store, p: Paths, m: NodeId, k: nat, id: NodeId): Paths
    requires Wf(s, p) && m in s && m != ROOT && 0 < k < |s[m].text|
  {
    assert Hangs(s, p, m);
    p[id := p[m][..Start(s, p, m) + k]]
  }

  ghost predicate Splittable(s: Store, p: Paths, m: NodeId, k: nat, id: NodeId) {
    Wf(s, p) && m in s && m != ROOT && Hangs(s, p, m) && 0 < k < |s[m].text| && id !in s
  }

  lemma SplitLinks(s: Store, p: Paths, m: NodeId, k: nat, id: NodeId, n: NodeId)
    requires Splittable(s, p, m, k, id) && (n in s || n == id)
    ensures ChildLinks(Split(s, m, k, id), n)
  {
    assert n in s ==> ChildLinks(s, n);
    assert s[m].parent.value != m by { assert |p[s[m].parent.value]| < |p[m]|; }
  }

  lemma SplitHangs(s: Store, p: Paths, m: NodeId, k: nat, id: NodeId, n: NodeId)
    requires Splittable(s, p, m, k, id) && n in s && n != ROOT && n != m
    ensures Hangs(Split(s, m, k, id), SplitPaths(s, p, m, k, id), n)
  {
    assert Hangs(s, p, n);
    assert s[m].parent.value != m by { assert |p[s[m].parent.value]| < |p[m]|; }
  }

  lemma SplitHangsNew(s: Store, p: Paths, m: NodeId, k: nat, id: NodeId)
    requires Splittable(s, p, m, k, id)
    ensures Hangs(Split(s, m, k, id), SplitPaths(s, p, m, k, id), m)
    ensures Hangs(Split(s, m, k, id), SplitPaths(s, p, m, k, id), id)
  {
    var q, x, p' := s[m].parent.value, s[m].text, SplitPaths(s, p, m, k, id);
    assert q != m by { assert |p[q]| < |p[m]|; }
    assert p'[id] == p[q] + x[..k];
    assert p'[m] == p'[id] + x[k..];
  }

  lemma SplitAllLinks(s: Store, p: Paths, m: NodeId, k: nat, id: NodeId)
    requires Splittable(s, p, m, k, id)
    ensures LinksOk(Split(s, m, k, id))
  {
    forall n | n in Split(s, m, k, id) ensures ChildLinks(Split(s, m, k, id), n) {
      SplitLinks(s, p, m, k, id, n);
    }
  }

  lemma SplitAllHangs(s: Store, p: Paths, m: NodeId, k: nat, id: NodeId)
    requires Splittable(s, p, m, k, id)
    ensures HangsOk(Split(s, m, k, id), SplitPaths(s, p, m, k, id))
  {
    var s', p' := Split(s, m, k, id), SplitPaths(s, p, m, k, id);
    SplitHangsNew(s, p, m, k, id);
    forall n | n in s' && n != ROOT ensures Hangs(s', p', n) {
      if n != m && n != id { SplitHangs(s, p, m, k, id, n); }
    }
  }

  lemma SplitWf(s: Store, p: Paths, m: NodeId, k: nat, id: NodeId)
    requires Splittable(s, p, m, k, id)
    ensures Wf(Split(s, m, k, id), SplitPaths(s, p, m, k, id))
  {
    SplitAllLinks(s, p, m, k, id);
    SplitAllHangs(s, p, m, k, id);
  }

  lemma SplitLang(s: Store, p: Paths, m: NodeId, k: nat, id: NodeId, u: Tenant)
    requires Splittable(s, p, m, k, id)
    ensures Lang(Split(s, m, k, id), SplitPaths(s, p, m, k, id), u) == Lang(s, p, u)
  {
    var s', p' := Split(s, m, k, id), SplitPaths(s, p, m, k, id);
    forall n | n in s && u in s[n].tenants ensures exists r :: Spells(s', p', u, r, p[n]) {
      assert Spells(s', p', u, n, p[n]);
    }
    forall n | n in s' && u in s'[n].tenants ensures exists r :: Spells(s, p, u, r, p'[n]) {
      assert Spells(s, p, u, if n == id then m else n, p'[n]);
    }
    LangSubset(s, p, s', p', u);
    LangSubset(s', p', s, p, u);
  }

  lemma SplitSize(s: Store, p: Paths, m: NodeId, k: nat, id: NodeId, u: Tenant)
    requires Splittable(s, p, m, k, id)
    ensures OwnedSize(Split(s, m, k, id), u) == OwnedSize(s, u)
  {
    var w, w' := Weights(s, u), Weights(Split(s, m, k, id), u);
    assert s[m].parent.value != m by { assert |p[s[m].parent.value]| < |p[m]|; }
    SplitWeights(s, m, k, id, u);
    if u in s[m].tenants {
      var v: map<NodeId, nat> := w - {m};
      assert w' - {id} - {m} == v;
      SumAt(w, m);
      SumAt(w', id);
      SumAt(w' - {id}, m);
    } else {
      assert w' == w;
    }
  }

  lemma SplitWeights(s: Store, m: NodeId, k: nat, id: NodeId, u: Tenant)
    requires m in s && s[m].parent.Some? && s[m].parent.value in s && s[m].parent.value != m
    requires 0 < k < |s[m].text| && id !in s
    ensures var w, w' := Weights(s, u), Weights(Split(s, m, k, id), u);
            && w'.Keys == w.Keys + (if u in s[m].tenants then {id} else {})
            && (u in s[m].tenants ==> w'[id] == k && w'[m] == |s[m].text| - k)
            && forall n :: n in w && n != m ==> w'[n] == w[n]
  {
    var s', w, w' := Split(s, m, k, id), Weights(s, u), Weights(Split(s, m, k, id), u);
    forall n ensures n in w' <==> n in w || (n == id && u in s[m].tenants) {
      assert n in s ==> s'[n].tenants == s[n].tenants;
    }
    forall n | n in w && n != m ensures w'[n] == w[n] {
      assert s'[n].text == s[n].text;
    }
  }

  // ---------- stamping an owner ----------

  function Stamp(s: Store, n: NodeId, t: Tenant, e: nat): Store
    requires n in s
  {
    s[n := s[n].(tenants := s[n].tenants[t := e])]
  }

  lemma StampWf(s: Store, p: Paths, n: NodeId, t: Tenant, e: nat)
    requires Wf(s, p) && n in s
    requires n != ROOT ==> s[n].parent.Some? && s[n].parent.value in s && t in s[s[n].parent.value].tenants
    ensures Wf(Stamp(s, n, t, e), p)
  {
    var s' := Stamp(s, n, t, e);
    forall m | m in s' ensures ChildLinks(s', m) {
      assert ChildLinks(s, m);
    }
    forall m | m in s' && m != ROOT ensures Hangs(s', p, m) {
      assert Hangs(s, p, m);
    }
  }

  lemma StampLang(s: Store, p: Paths, n: NodeId, t: Tenant, e: nat, u: Tenant)
    requires Wf(s, p) && n in s
    ensures Lang(Stamp(s, n, t, e), p, u) == Lang(s, p, u) + if u == t then Prefixes(p[n]) else {}
  {
    var s' := Stamp(s, n, t, e);
    forall m | m in s && u in s[m].tenants ensures exists r :: Spells(s', p, u, r, p[m]) {
      assert Spells(s', p, u, m, p[m]);
    }
    if u == t {
      LangGrows(s, p, s', p, u, n);
    } else {
      forall m | m in s' && u in s'[m].tenants ensures exists r :: Spells(s, p, u, r, p[m]) {
        assert Spells(s, p, u, m, p[m]);
      }
      LangSubset(s, p, s', p, u);
      LangSubset(s', p, s, p, u);
    }
  }

  lemma StampSize(s: Store, n: NodeId, t: Tenant, e: nat, u: Tenant)
    requires n in s
    ensures OwnedSize(Stamp(s, n, t, e), u) ==
            OwnedSize(s, u) + if u == t && t !in s[n].tenants then |s[n].text| else 0
  {
    var s' := Stamp(s, n, t, e);
    if u == t && t !in s[n].tenants {
      assert Weights(s', u) == Weights(s, u)[n := |s[n].text|];
      SumInsert(Weights(s, u), n, |s[n].text|);
    } else {
      assert Weights(s', u) == Weights(s, u);
    }
  }

  // ---------- taking an owner off a leaf ----------

  /** Remove `t` from `n`; a node left with neither children nor owners is unlinked from its parent. */
  function Disown(s: Store, n: NodeId, t: Tenant): Store
    requires n in s
  {
    var node := s[n].(tenants := s[n].tenants - {t});
    if node.children == map[] && node.tenants == map[]
       && node.parent.Some? && node.parent.value in s && node.text != "" then
      var q := node.parent.value;
      s[q := s[q].(children := s[q].children - {node.text[0]})] - {n}
    else
      s[n := node]
  }

  ghost function DisownPaths(s: Store, p: Paths, n: NodeId, t: Tenant): Paths
    requires n in s
  {
    if n in Disown(s, n, t) then p else p - {n}
  }

  /** A leaf with children keeps an owner. */
  lemma OwnerRemains(s: Store, p: Paths, n: NodeId, t: Tenant)
    requires Wf(s, p) && Leaf(s, n, t) && s[n].children != map[]
    ensures s[n].tenants - {t} != map[]
  {
    var c :| c in s[n].children;
    assert ChildLinks(s, n);
    var m := s[n].children[c];
    assert Hangs(s, p, m);
    var u :| u in s[m].tenants;
    assert u in s[n].tenants - {t};
  }

  lemma DisownLinks(s: Store, p: Paths, n: NodeId, t: Tenant, m: NodeId)
    requires Wf(s, p) && Leaf(s, n, t) && m in Disown(s, n, t)
    requires n != ROOT ==> Hangs(s, p, n)
    ensures ChildLinks(Disown(s, n, t), m)
  {
    assert ChildLinks(s, m);
  }

  lemma DisownHangs(s: Store, p: Paths, n: NodeId, t: Tenant, m: NodeId)
    requires Wf(s, p) && Leaf(s, n, t) && m in Disown(s, n, t) && m != ROOT
    requires s[n].tenants - {t} == map[] ==> s[n].children == map[]
    ensures Hangs(Disown(s, n, t), DisownPaths(s, p, n, t), m)
  {
    assert Hangs(s, p, m);
    if s[m].parent.value == n {
      assert s[n].children[s[m].text[0]] == m;
    } else {
      assert n != ROOT ==> Hangs(s, p, n);
    }
  }

  lemma DisownWf(s: Store, p: Paths, n: NodeId, t: Tenant)
    requires Wf(s, p) && Leaf(s, n, t)
    ensures Wf(Disown(s, n, t), DisownPaths(s, p, n, t))
  {
    var s', p' := Disown(s, n, t), DisownPaths(s, p, n, t);
    if s[n].children != map[] {
      OwnerRemains(s, p, n, t);
    }
    assert n != ROOT ==> Hangs(s, p, n);
    forall m | m in s' ensures ChildLinks(s', m) {
      DisownLinks(s, p, n, t, m);
    }
    forall m | m in s' && m != ROOT ensures Hangs(s', p', m) {
      DisownHangs(s, p, n, t, m);
    }
  }

  /** Only the strings that end on the leaf go, and only for the tenant taken off it.
      (At the root the one string that goes is the empty one.) */
  lemma DisownLang(s: Store, p: Paths, n: NodeId, t: Tenant, u: Tenant)
    requires Wf(s, p) && Leaf(s, n, t)
    ensures Wf(Disown(s, n, t), DisownPaths(s, p, n, t))
    ensures Lang(Disown(s, n, t), DisownPaths(s, p, n, t), u) ==
            if u != t then Lang(s, p, u)
            else if n == ROOT then {}
            else Lang(s, p, t) - StringsOn(s, p, n)
  {
    DisownWf(s, p, n, t);
    var s', p' := Disown(s, n, t), DisownPaths(s, p, n, t);
    if u != t {
      forall m | m in s && u in s[m].tenants ensures exists r :: Spells(s', p', u, r, p[m]) {
        DisownOthers(s, n, t, m, u);
        assert Spells(s', p', u, m, p[m]);
      }
      forall m | m in s' && u in s'[m].tenants ensures exists r :: Spells(s, p, u, r, p'[m]) {
        assert Spells(s, p, u, m, p'[m]);
      }
      LangSubset(s, p, s', p', u);
      LangSubset(s', p', s, p, u);
    } else if n == ROOT {
      RootLeafOwnsNothingElse(s, p, t);
    } else {
      forall x ensures x in Lang(s', p', t) <==> x in Lang(s, p, t) - StringsOn(s, p, n) {
        DisownMember(s, p, n, t, x);
      }
    }
  }

  lemma DisownOthers(s: Store, n: NodeId, t: Tenant, m: NodeId, u: Tenant)
    requires n in s && m in s && u in s[m].tenants && (u != t || m != n)
    ensures m in Disown(s, n, t) && u in Disown(s, n, t)[m].tenants
  {
    if m == n {
      assert u in s[n].tenants - {t};
    }
  }

  lemma RootLeafOwnsNothingElse(s: Store, p: Paths, t: Tenant)
    requires Wf(s, p) && Leaf(s, ROOT, t)
    ensures forall m :: m in s && t in s[m].tenants ==> m == ROOT
  {
    forall m | m in s && t in s[m].tenants ensures m == ROOT {
      if m != ROOT { ClimbToTop(s, p, m, t); }
    }
  }

  /** The owners of any node own a child of the root on the way to it. */
  lemma {:induction false} ClimbToTop(s: Store, p: Paths, m: NodeId, t: Tenant)
    requires Wf(s, p) && m in s && m != ROOT && t in s[m].tenants
    ensures ChildOwned(s, ROOT, t)
    decreases |p[m]|
  {
    assert Hangs(s, p, m);
    var q := s[m].parent.value;
    if q != ROOT {
      ClimbToTop(s, p, q, t);
    } else {
      assert s[ROOT].children[s[m].text[0]] == m;
    }
  }

  lemma DisownMember(s: Store, p: Paths, n: NodeId, t: Tenant, x: string)
    requires Wf(s, p) && Leaf(s, n, t) && n != ROOT
    requires Wf(Disown(s, n, t), DisownPaths(s, p, n, t))
    ensures x in Lang(Disown(s, n, t), DisownPaths(s, p, n, t), t) <==>
            x in Lang(s, p, t) && x !in StringsOn(s, p, n)
  {
    var s', p' := Disown(s, n, t), DisownPaths(s, p, n, t);
    StringsOnMember(s, p, n, x);
    LangMember(s, p, t, x);
    LangMember(s', p', t, x);
    if m :| Spells(s', p', t, m, x) {
      assert Spells(s, p, t, m, x);
      if On(s, p, n, x) {
        LeafEndsPath(s, p, n, t, m, x);
      }
    }
    if !On(s, p, n, x) {
      if m :| Spells(s, p, t, m, x) {
        if m == n {
          assert Hangs(s, p, n);
          assert Spells(s', p', t, s[n].parent.value, x);
        } else {
          assert Spells(s', p', t, m, x);
        }
      }
    }
  }

  /** Below a leaf the tenant owns nothing: a string ending on the leaf is spelled only there. */
  lemma {:induction false} LeafEndsPath(s: Store, p: Paths, n: NodeId, t: Tenant, m: NodeId, x: string)
    requires Wf(s, p) && Leaf(s, n, t) && n != ROOT && On(s, p, n, x) && Spells(s, p, t, m, x)
    ensures m == n
    decreases |p[m]|
  {
    assert x != "" && m != ROOT && Hangs(s, p, m);
    if Start(s, p, m) < |x| {
      OnUnique(s, p, n, m, x);
    } else {
      var q := s[m].parent.value;
      assert Spells(s, p, t, q, x);
      LeafEndsPath(s, p, n, t, q, x);
    }
  }

  lemma DisownSize(s: Store, n: NodeId, t: Tenant, u: Tenant)
    requires n in s && t in s[n].tenants && (s[n].parent.Some? ==> s[n].parent.value != n)
    ensures OwnedSize(Disown(s, n, t), u) + (if u == t then |s[n].text| else 0) == OwnedSize(s, u)
  {
    DisownWeights(s, n, t, u);
    if u == t {
      SumAt(Weights(s, u), n);
    }
  }

  lemma DisownWeights(s: Store, n: NodeId, t: Tenant, u: Tenant)
    requires n in s && (s[n].parent.Some? ==> s[n].parent.value != n)
    ensures Weights(Disown(s, n, t), u) == if u == t then Weights(s, u) - {n} else Weights(s, u)
  {
    var s' := Disown(s, n, t);
    var w := if u == t then Weights(s, u) - {n} else Weights(s, u);
    forall m
      ensures m in w <==> m in s' && u in s'[m].tenants
      ensures m in w ==> w[m] == |s'[m].text|
    {
      if m in w { DisownOthers(s, n, t, m, u); }
    }
    WeightsAre(s', u, w);
  }
}
