/** Removing a tenant leaf by leaf, upwards to the root. */
module RadixRemoval {
  import opened Tenants
  import opened TreeSpec
  import opened RadixNodes
  import opened RadixSteps
  import opened RadixState
  import opened RadixTraversal
  import opened RadixEviction

  /** What is left has the path it had. */
  ghost predicate PathsKept(p0: Paths, p: Paths) {
    forall n :: n in p ==> n in p0 && p[n] == p0[n]
  }

  /** Between `g0` and `g` only ownership by `t` has been taken away. */
  ghost predicate Removing(g0: State, g: State, t: Tenant)
    requires Wf(g0.nodes, g0.paths)
  {
    && Wf(g.nodes, g.paths) && Clocked(g.nodes, g.epoch)
    && g.counts == g0.counts && g.epoch == g0.epoch && PathsKept(g0.paths, g.paths)
    && g.nodes[ROOT].tenants.Keys - {t} == g0.nodes[ROOT].tenants.Keys - {t}
    && (forall u {:trigger Lang(g.nodes, g.paths, u)} :: u != t ==>
          Lang(g.nodes, g.paths, u) == Lang(g0.nodes, g0.paths, u))
    && (forall u {:trigger OwnedSize(g.nodes, u)} :: u != t ==> OwnedSize(g.nodes, u) == OwnedSize(g0.nodes, u))
  }

  /** Up to ownership by `t`, node `n` is what it was: same text, cached tenant, owners and stamps. */
  ghost predicate SameButFor(s0: Store, s: Store, n: NodeId, t: Tenant) {
    && n in s && n in s0
    && s[n].text == s0[n].text && s[n].lastTenant == s0[n].lastTenant
    && s[n].tenants - {t} == s0[n].tenants - {t}
  }

  /** Every node left is what it was up to `t`, and every node with another owner is left. */
  ghost predicate OthersKept(s0: Store, s: Store, t: Tenant) {
    && (forall n {:trigger SameButFor(s0, s, n, t)} :: n in s ==> SameButFor(s0, s, n, t))
    && (forall n :: n in s0 && s0[n].tenants - {t} != map[] ==> n in s)
  }

  lemma OthersKeptStep(s0: Store, s: Store, t: Tenant, n: NodeId)
    requires OthersKept(s0, s, t) && n in s
    ensures OthersKept(s0, Disown(s, n, t), t)
  {
    var s' := Disown(s, n, t);
    forall m | m in s' ensures SameButFor(s0, s', m, t) {
      assert SameButFor(s0, s, m, t);
      assert s'[m].tenants - {t} == s[m].tenants - {t};
    }
    assert SameButFor(s0, s, n, t);
  }

  lemma RemovingStep(g0: State, g: State, t: Tenant, n: NodeId)
    requires Wf(g0.nodes, g0.paths) && Removing(g0, g, t) && Leaf(g.nodes, n, t)
    ensures Removing(g0, g.(nodes := Disown(g.nodes, n, t), paths := DisownPaths(g.nodes, g.paths, n, t)), t)
  {
    var g' := g.(nodes := Disown(g.nodes, n, t), paths := DisownPaths(g.nodes, g.paths, n, t));
    DisownWf(g.nodes, g.paths, n, t);
    DisownRoot(g.nodes, g.paths, n, t);
    DisownClocked(g.nodes, n, t, g.epoch);
    assert n != ROOT ==> Hangs(g.nodes, g.paths, n);
    forall u | u != t
      ensures Lang(g'.nodes, g'.paths, u) == Lang(g0.nodes, g0.paths, u)
      ensures OwnedSize(g'.nodes, u) == OwnedSize(g0.nodes, u)
    {
      DisownLang(g.nodes, g.paths, n, t, u);
      DisownSize(g.nodes, n, t, u);
      assert Lang(g.nodes, g.paths, u) == Lang(g0.nodes, g0.paths, u);
      assert OwnedSize(g.nodes, u) == OwnedSize(g0.nodes, u);
    }
  }

  /** Without a leaf the tenant owns nothing. */
  lemma NoLeafNoNode(s: Store, p: Paths, t: Tenant, n: NodeId)
    requires Wf(s, p) && (forall m :: !Leaf(s, m, t)) && n in s
    ensures t !in s[n].tenants
  {
    if t in s[n].tenants {
      var l := LeafBelow(s, p, n, t);
    }
  }

  /** With the tenant gone, the sizes are the recorded ones without its own. */
  lemma RemovedTallied(g0: State, g: State, t: Tenant)
    requires Inv(g0) && Removing(g0, g, t) && forall n :: n in g.nodes ==> t !in g.nodes[n].tenants
    ensures Tallied(g.nodes, g.counts - {t})
  {
    forall u ensures OwnedSize(g.nodes, u) == CountOf(g.counts - {t}, u) {
      if u == t {
        assert Weights(g.nodes, t) == map[];
      } else {
        assert OwnedSize(g0.nodes, u) == CountOf(g0.counts, u);
        assert OwnedSize(g.nodes, u) == OwnedSize(g0.nodes, u);
      }
    }
  }

  lemma RemovedView(g0: State, g: State, t: Tenant)
    requires Inv(g0) && Removing(g0, g, t) && forall m :: !Leaf(g.nodes, m, t)
    ensures var g' := g.(counts := g.counts - {t});
            Inv(g') && View(g') == Removed(View(g0), t)
  {
    var g' := g.(counts := g.counts - {t});
    forall n | n in g.nodes ensures t !in g.nodes[n].tenants { NoLeafNoNode(g.nodes, g.paths, t, n); }
    RemovedTallied(g0, g, t);
    assert g.nodes[ROOT].tenants.Keys - {t} == g.nodes[ROOT].tenants.Keys;
    forall u | u in g'.nodes[ROOT].tenants ensures Lang(g'.nodes, g'.paths, u) == Lang(g0.nodes, g0.paths, u) {
      assert u != t;
    }
  }

  // ---------- the queue ----------

  ghost predicate QueuesLeaves(s: Store, t: Tenant, queue: seq<NodeId>) {
    Distinct(queue) && forall n :: n in queue <==> Leaf(s, n, t)
  }

  /** Taking the first leaf off and queueing its parent, if that became one, keeps the queue exact. */
  lemma QueueStep(s: Store, p: Paths, t: Tenant, queue: seq<NodeId>)
    requires Wf(s, p) && queue != [] && QueuesLeaves(s, t, queue) && Leaf(s, queue[0], t)
    ensures var s' := Disown(s, queue[0], t);
            var q := s[queue[0]].parent;
            QueuesLeaves(s', t, queue[1..] + if q.Some? && Leaf(s', q.value, t) then [q.value] else [])
  {
    var n, s', q := queue[0], Disown(s, queue[0], t), s[queue[0]].parent;
    var rest := queue[1..];
    var more := if q.Some? && Leaf(s', q.value, t) then [q.value] else [];
    assert queue == [n] + rest && n !in rest;
    if n != ROOT {
      assert Hangs(s, p, n);
      assert s[q.value].children[s[n].text[0]] == n;
      assert !Leaf(s, q.value, t);
    }
    DistinctAppend(rest, more);
    forall m ensures m in rest + more <==> Leaf(s', m, t) {
      if m in rest {
        assert m in queue && m != n;
        LeavesKept(s, p, n, t, m, t);
      }
      if Leaf(s', m, t) {
        LeavesAfter(s, p, n, t, m, t);
        assert m !in more ==> m in queue;
      }
    }
  }

  /** All leaves of `t`, found by a full traversal. */
  method TenantLeaves(s: Store, ghost p: Paths, t: Tenant) returns (queue: seq<NodeId>)
    requires Wf(s, p)
    ensures QueuesLeaves(s, t, queue)
  {
    var order := AllNodes(s, p);
    queue := [];
    var i := 0;
    while i < |order|
      invariant i <= |order| && Distinct(queue)
      invariant forall n :: n in queue <==> n in order[..i] && Leaf(s, n, t)
    {
      assert order[i] in order;
      assert order[..i + 1] == order[..i] + [order[i]];
      assert order[i] !in order[..i];
      if Leaf(s, order[i], t) {
        DistinctAppend(queue, [order[i]]);
        queue := queue + [order[i]];
      }
      i := i + 1;
    }
    assert order[..i] == order;
  }
}
