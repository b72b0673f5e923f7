/** Depth-first traversal of the node store with an explicit stack, and what it is used for:
    recomputing sizes and collecting leaves. */
module RadixTraversal {
  import opened Tenants
  import opened Options
  import opened MapSums
  import opened RadixNodes

  ghost predicate Distinct<T>(xs: seq<T>) {
    forall i, j :: 0 <= i < j < |xs| ==> xs[i] != xs[j]
  }

  lemma DistinctAppend<T>(xs: seq<T>, ys: seq<T>)
    requires Distinct(xs) && Distinct(ys) && forall x :: x in xs ==> x !in ys
    ensures Distinct(xs + ys)
  {
    var zs := xs + ys;
    forall i, j | 0 <= i < j < |zs| ensures zs[i] != zs[j] {
      if i < |xs| <= j {
        assert zs[i] in xs && zs[j] in ys;
      }
    }
  }

  /** The children of a node in an arbitrary order. */
  method ChildrenOf(s: Store, n: NodeId) returns (kids: seq<NodeId>)
    requires n in s && ChildLinks(s, n)
    ensures Distinct(kids)
    ensures forall m :: m in kids <==> exists c :: c in s[n].children && s[n].children[c] == m
  {
    var kin := s[n].children;
    var todo := kin.Keys;
    kids := [];
    while todo != {}
      invariant todo <= kin.Keys && Distinct(kids)
      invariant forall m :: m in kids <==> exists c :: c in kin.Keys - todo && kin[c] == m
    {
      var c :| c in todo;
      assert kin[c] !in kids;
      kids := kids + [kin[c]];
      todo := todo - {c};
    }
  }

  /** `order` has been visited and `stack` is waiting: children of visited nodes are in one of
      the two, and only they and the root are. */
  ghost predicate Frontier(s: Store, order: seq<NodeId>, stack: seq<NodeId>) {
    && Distinct(order) && Distinct(stack) && (forall m :: m in order ==> m !in stack)
    && ROOT in order + stack
    && (forall m :: m in order + stack ==> m in s && (m != ROOT ==> s[m].parent.Some? && s[m].parent.value in order))
    && (forall n, c :: n in order && c in s[n].children ==> s[n].children[c] in order + stack)
  }

  lemma {:induction false} AllReached(s: Store, p: Paths, order: seq<NodeId>, n: NodeId)
    requires Wf(s, p) && Frontier(s, order, []) && n in s
    ensures n in order
    decreases |p[n]|
  {
    if n != ROOT {
      assert Hangs(s, p, n);
      AllReached(s, p, order, s[n].parent.value);
      assert s[s[n].parent.value].children[s[n].text[0]] in order + [];
    }
  }

  lemma FrontierStep(s: Store, p: Paths, order: seq<NodeId>, stack: seq<NodeId>, kids: seq<NodeId>)
    requires Wf(s, p) && stack != [] && Frontier(s, order, stack)
    requires var curr := stack[|stack| - 1];
             curr in s && Distinct(kids)
             && forall m :: m in kids <==> exists c :: c in s[curr].children && s[curr].children[c] == m
    ensures var curr := stack[|stack| - 1];
            curr !in order && Frontier(s, order + [curr], stack[..|stack| - 1] + kids)
  {
    var curr, rest := stack[|stack| - 1], stack[..|stack| - 1];
    assert curr in order + stack && stack == rest + [curr];
    assert ChildLinks(s, curr);
    forall m | m in kids ensures m !in order + stack && m in s && s[m].parent == Some(curr) && m != ROOT {
    }
    DistinctAppend(order, [curr]);
    DistinctAppend(rest, kids);
  }

  /** Every node exactly once. */
  method AllNodes(s: Store, ghost p: Paths) returns (order: seq<NodeId>)
    requires Wf(s, p)
    ensures Distinct(order)
    ensures forall n :: n in order <==> n in s
  {
    var stack := [ROOT];
    order := [];
    ghost var left := s.Keys;
    while stack != []
      invariant Frontier(s, order, stack)
      invariant forall n :: n in left <==> n in s && n !in order
      decreases left
    {
      var curr := stack[|stack| - 1];
      assert curr in order + stack;
      assert ChildLinks(s, curr);
      var kids := ChildrenOf(s, curr);
      FrontierStep(s, p, order, stack, kids);
      stack := stack[..|stack| - 1] + kids;
      order := order + [curr];
      left := left - {curr};
    }
    assert order + stack == order;
    forall n | n in s ensures n in order { AllReached(s, p, order, n); }
  }

  // ---------- recomputing the sizes ----------

  ghost function WeightsIn(s: Store, t: Tenant, ns: seq<NodeId>): map<NodeId, nat> {
    map n | n in ns && n in s && t in s[n].tenants :: |s[n].text|
  }

  function SizeIn(used: map<Tenant, nat>, t: Tenant): nat {
    if t in used then used[t] else 0
  }

  /** Add the text of one node to the size of each of its owners. */
  function Tally(used: map<Tenant, nat>, node: Node): (r: map<Tenant, nat>)
    ensures r.Keys == used.Keys + node.tenants.Keys
    ensures forall t :: SizeIn(r, t) == SizeIn(used, t) + if t in node.tenants then |node.text| else 0
  {
    map t | t in used.Keys + node.tenants.Keys ::
      SizeIn(used, t) + (if t in node.tenants then |node.text| else 0)
  }

  /** `used` has an entry for `t` if `t` owns one of `ns`, and it sums up what `t` owns there. */
  ghost predicate AccountsFor(s: Store, used: map<Tenant, nat>, ns: seq<NodeId>, t: Tenant) {
    && (t in used <==> WeightsIn(s, t, ns).Keys != {})
    && SizeIn(used, t) == Sum(WeightsIn(s, t, ns))
  }

  /** `used` accounts for exactly the nodes in `ns`. */
  ghost predicate Accounts(s: Store, used: map<Tenant, nat>, ns: seq<NodeId>) {
    forall t {:trigger AccountsFor(s, used, ns, t)} :: AccountsFor(s, used, ns, t)
  }

  lemma AccountsStep(s: Store, used: map<Tenant, nat>, order: seq<NodeId>, i: nat)
    requires i < |order| && Distinct(order) && order[i] in s && Accounts(s, used, order[..i])
    ensures Accounts(s, Tally(used, s[order[i]]), order[..i + 1])
  {
    var r, ns := Tally(used, s[order[i]]), order[..i + 1];
    forall t ensures AccountsFor(s, r, ns, t) {
      assert AccountsFor(s, used, order[..i], t);
      WeightsInStep(s, t, order, i);
    }
  }

  lemma AccountsNone(s: Store)
    ensures Accounts(s, map[], [])
  {
    forall t ensures AccountsFor(s, map[], [], t) {
      assert WeightsIn(s, t, []) == map[];
    }
  }

  lemma AccountsAll(s: Store, used: map<Tenant, nat>, order: seq<NodeId>, t: Tenant)
    requires Accounts(s, used, order) && forall n :: n in order <==> n in s
    ensures t in used <==> exists n :: n in s && t in s[n].tenants
    ensures SizeIn(used, t) == OwnedSize(s, t)
  {
    assert AccountsFor(s, used, order, t);
    assert WeightsIn(s, t, order) == Weights(s, t);
    if n :| n in s && t in s[n].tenants {
      assert n in WeightsIn(s, t, order).Keys;
    }
    if n :| n in WeightsIn(s, t, order).Keys {
      assert n in s && t in s[n].tenants;
    }
  }

  lemma AccountsWhole(s: Store, used: map<Tenant, nat>, order: seq<NodeId>)
    requires Accounts(s, used, order) && forall n :: n in order <==> n in s
    ensures forall t :: t in used <==> exists n :: n in s && t in s[n].tenants
    ensures forall t :: SizeIn(used, t) == OwnedSize(s, t)
  {
    forall t
      ensures t in used <==> exists n :: n in s && t in s[n].tenants
      ensures SizeIn(used, t) == OwnedSize(s, t)
    {
      AccountsAll(s, used, order, t);
    }
  }

  /** Sizes recomputed by a full traversal: one entry per owner of anything. */
  method GetUsedSizePerTenant(s: Store, ghost p: Paths) returns (used: map<Tenant, nat>)
    requires Wf(s, p)
    ensures forall t :: t in used <==> exists n :: n in s && t in s[n].tenants
    ensures forall t :: SizeIn(used, t) == OwnedSize(s, t)
  {
    var order := AllNodes(s, p);
    used := map[];
    AccountsNone(s);
    var i := 0;
    while i < |order|
      invariant i <= |order| && Accounts(s, used, order[..i])
    {
      assert order[i] in order;
      AccountsStep(s, used, order, i);
      used := Tally(used, s[order[i]]);
      i := i + 1;
    }
    assert order[..i] == order;
    AccountsWhole(s, used, order);
  }

  lemma WeightsInStep(s: Store, t: Tenant, order: seq<NodeId>, i: nat)
    requires i < |order| && Distinct(order) && order[i] in s
    ensures Sum(WeightsIn(s, t, order[..i + 1])) ==
            Sum(WeightsIn(s, t, order[..i])) + if t in s[order[i]].tenants then |s[order[i]].text| else 0
    ensures WeightsIn(s, t, order[..i + 1]).Keys ==
            WeightsIn(s, t, order[..i]).Keys + if t in s[order[i]].tenants then {order[i]} else {}
  {
    var n, w, w' := order[i], WeightsIn(s, t, order[..i]), WeightsIn(s, t, order[..i + 1]);
    assert order[..i + 1] == order[..i] + [n];
    if t in s[n].tenants {
      assert w' == w[n := |s[n].text|];
      SumInsert(w, n, |s[n].text|);
    } else {
      assert w' == w;
    }
  }

  // ---------- collecting leaves ----------

  /** The tenants for which `n` is a leaf. */
  method LeafOf(s: Store, n: NodeId) returns (leaves: set<Tenant>)
    requires n in s && ChildLinks(s, n)
    ensures forall t :: t in leaves <==> Leaf(s, n, t)
  {
    var candidates := map t | t in s[n].tenants :: true;
    var kids := ChildrenOf(s, n);
    for i := 0 to |kids|
      invariant forall t :: t in candidates && candidates[t] <==> t in s[n].tenants && !OwnsOneOf(s, kids[..i], t)
    {
      assert kids[i] in kids;
      forall t ensures OwnsOneOf(s, kids[..i + 1], t) <==> OwnsOneOf(s, kids[..i], t) || t in s[kids[i]].tenants {
        OneMoreKid(s, kids, i, t);
      }
      candidates := candidates + map t | t in s[kids[i]].tenants :: false;
    }
    assert kids[..|kids|] == kids;
    forall t ensures OwnsOneOf(s, kids, t) <==> ChildOwned(s, n, t) { KidsOwned(s, n, kids, t); }
    leaves := set t | t in candidates && candidates[t];
  }

  predicate OwnsOneOf(s: Store, kids: seq<NodeId>, t: Tenant) {
    exists m :: m in kids && m in s && t in s[m].tenants
  }

  lemma KidsOwned(s: Store, n: NodeId, kids: seq<NodeId>, t: Tenant)
    requires n in s && ChildLinks(s, n)
    requires forall m :: m in kids <==> exists c :: c in s[n].children && s[n].children[c] == m
    ensures OwnsOneOf(s, kids, t) <==> ChildOwned(s, n, t)
  {
    if ChildOwned(s, n, t) {
      var c :| c in s[n].children && s[n].children[c] in s && t in s[s[n].children[c]].tenants;
      assert s[n].children[c] in kids;
    }
  }

  lemma OneMoreKid(s: Store, kids: seq<NodeId>, i: nat, t: Tenant)
    requires i < |kids| && kids[i] in s
    ensures OwnsOneOf(s, kids[..i + 1], t) <==> OwnsOneOf(s, kids[..i], t) || t in s[kids[i]].tenants
  {
    assert kids[..i + 1] == kids[..i] + [kids[i]];
    assert kids[i] in kids[..i + 1];
    if m :| m in kids[..i] && m in s && t in s[m].tenants { assert m in kids[..i + 1]; }
  }
}
