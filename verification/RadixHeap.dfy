/** The eviction queue: leaves ordered by stamp, with stale entries allowed. */
module RadixHeap {
  import opened Tenants
  import opened RadixNodes
  import opened RadixSteps
  import opened RadixState
  import opened RadixTraversal
  import opened RadixEviction

  datatype HeapEntry = HeapEntry(stamp: nat, tenant: Tenant, node: NodeId)

  type Heap = multiset<HeapEntry>

  function EntryFor(s: Store, n: NodeId, t: Tenant): HeapEntry
    requires n in s && t in s[n].tenants
  {
    HeapEntry(s[n].tenants[t], t, n)
  }

  /** Every leaf of every tenant over budget is queued. */
  ghost predicate Queued(s: Store, counts: map<Tenant, nat>, max: nat, pq: Heap) {
    forall n, t :: Leaf(s, n, t) && OverBudget(counts, t, max) ==> EntryFor(s, n, t) in pq
  }

  /** Queued stamps are the current ones, as far as the entry is still about an owner. */
  ghost predicate Current(s: Store, pq: Heap) {
    forall h :: h in pq && h.node in s && h.tenant in s[h.node].tenants ==>
      h.stamp == s[h.node].tenants[h.tenant]
  }

  /** Take out an entry with the least stamp; ties are broken arbitrarily. */
  method PopMin(pq: Heap) returns (h: HeapEntry, rest: Heap)
    requires pq != multiset{}
    ensures h in pq && rest == pq - multiset{h}
    ensures forall x :: x in pq ==> h.stamp <= x.stamp
  {
    h :| h in pq;
    while exists x :: x in pq && x.stamp < h.stamp
      invariant h in pq
      decreases h.stamp
    {
      var x :| x in pq && x.stamp < h.stamp;
      h := x;
    }
    rest := pq - multiset{h};
  }

  method CollectLeaves(s: Store, ghost p: Paths) returns (pq: Heap)
    requires Wf(s, p)
    ensures forall n, t :: Leaf(s, n, t) ==> EntryFor(s, n, t) in pq
    ensures Current(s, pq)
  {
    var order := AllNodes(s, p);
    pq := multiset{};
    var i := 0;
    while i < |order|
      invariant i <= |order| && Current(s, pq)
      invariant forall n, t :: n in order[..i] && Leaf(s, n, t) ==> EntryFor(s, n, t) in pq
    {
      var n := order[i];
      assert n in order && ChildLinks(s, n);
      assert order[..i + 1] == order[..i] + [n];
      var leaves := LeafOf(s, n);
      pq := pq + multiset(set t | t in leaves && t in s[n].tenants :: EntryFor(s, n, t));
      i := i + 1;
    }
    assert order[..i] == order;
  }

  /** An entry may be dropped when its tenant is within budget or it is no longer a leaf. */
  lemma DropKeepsQueued(s: Store, counts: map<Tenant, nat>, max: nat, pq: Heap, h: HeapEntry)
    requires Queued(s, counts, max, pq)
    requires !OverBudget(counts, h.tenant, max) || !Leaf(s, h.node, h.tenant)
    ensures Queued(s, counts, max, pq - multiset{h})
  {
  }

  /** The least entry, if it is a leaf of a tenant over budget, is due. */
  lemma LeastIsDue(g: State, max: nat, pq: Heap, h: HeapEntry)
    requires Queued(g.nodes, g.counts, max, pq) && Current(g.nodes, pq)
    requires h in pq && forall x :: x in pq ==> h.stamp <= x.stamp
    requires OverBudget(g.counts, h.tenant, max) && Leaf(g.nodes, h.node, h.tenant)
    ensures Due(g, Eviction(h.node, h.tenant), max)
  {
    forall m | Leaf(g.nodes, m, h.tenant)
      ensures g.nodes[h.node].tenants[h.tenant] <= g.nodes[m].tenants[h.tenant]
    {
      assert EntryFor(g.nodes, m, h.tenant) in pq;
    }
  }

  /** After the removal the queue covers again once the parent is queued, if it became a leaf. */
  lemma EvictKeepsQueued(g: State, max: nat, pq: Heap, h: HeapEntry, pq': Heap)
    requires Inv(g) && Queued(g.nodes, g.counts, max, pq) && Current(g.nodes, pq) && h in pq
    requires Due(g, Eviction(h.node, h.tenant), max)
    requires Requeued(g, pq, h, pq')
    ensures var g' := Apply(g, Eviction(h.node, h.tenant));
            Queued(g'.nodes, g'.counts, max, pq') && Current(g'.nodes, pq')
  {
    var g' := Apply(g, Eviction(h.node, h.tenant));
    DisownStamps(g.nodes, h.node, h.tenant);
    forall n, t | Leaf(g'.nodes, n, t) && OverBudget(g'.counts, t, max)
      ensures EntryFor(g'.nodes, n, t) in pq'
    {
      LeavesAfter(g.nodes, g.paths, h.node, h.tenant, n, t);
      DueSize(g, Eviction(h.node, h.tenant), max, t);
      if Leaf(g.nodes, n, t) {
        assert EntryFor(g.nodes, n, t) in pq;
        assert EntryFor(g'.nodes, n, t) == EntryFor(g.nodes, n, t);
      }
    }
  }

  /** An empty queue that still covers leaves nothing to evict. */
  lemma EmptyMeansExhausted(g: State, max: nat)
    requires Queued(g.nodes, g.counts, max, multiset{})
    ensures Exhausted(g, max)
  {
  }

  // ---------- termination ----------

  ghost function Ownerships(s: Store): set<(NodeId, Tenant)> {
    set n, t | n in s && t in s[n].tenants :: (n, t)
  }

  lemma OwnershipsShrink(s: Store, n: NodeId, t: Tenant)
    requires n in s && t in s[n].tenants && (s[n].parent.Some? ==> s[n].parent.value != n)
    ensures Ownerships(Disown(s, n, t)) < Ownerships(s)
  {
    DisownStamps(s, n, t);
    assert (n, t) in Ownerships(s) && (n, t) !in Ownerships(Disown(s, n, t));
  }

  // ---------- one round ----------

  /** The queue after evicting the leaf of `h` in `g`: its entry goes, a new leaf's comes. */
  ghost predicate Requeued(g: State, pq: Heap, h: HeapEntry, pq': Heap)
    requires h.node in g.nodes
  {
    var s' := Disown(g.nodes, h.node, h.tenant);
    var q := g.nodes[h.node].parent;
    pq' == pq - multiset{h} +
           if q.Some? && Leaf(s', q.value, h.tenant) then multiset{EntryFor(s', q.value, h.tenant)} else multiset{}
  }

  lemma EvictStep(g: State, max: nat, pq: Heap, h: HeapEntry, pq': Heap, next: NodeId)
    requires Inv(g) && IdsBelow(g.nodes, next)
    requires Queued(g.nodes, g.counts, max, pq) && Current(g.nodes, pq) && h in pq
    requires Due(g, Eviction(h.node, h.tenant), max) && Requeued(g, pq, h, pq')
    ensures var g' := Apply(g, Eviction(h.node, h.tenant));
            && Inv(g') && IdsBelow(g'.nodes, next)
            && Queued(g'.nodes, g'.counts, max, pq') && Current(g'.nodes, pq')
            && Ownerships(g'.nodes) < Ownerships(g.nodes)
  {
    assert h.node != ROOT ==> Hangs(g.nodes, g.paths, h.node);
    OwnershipsShrink(g.nodes, h.node, h.tenant);
    DueInv(g, Eviction(h.node, h.tenant), max);
    DisownStamps(g.nodes, h.node, h.tenant);
    EvictKeepsQueued(g, max, pq, h, pq');
  }
}
