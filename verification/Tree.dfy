/** The multi-tenant radix tree: the operations as in-place updates of the node store. */
module RadixTree {
  import opened Tenants
  import opened Options
  import opened Text
  import opened TreeSpec
  import opened RadixNodes
  import opened RadixSteps
  import opened RadixState
  import opened RadixStamps
  import opened RadixMatching
  import opened RadixTraversal
  import opened RadixEviction
  import opened RadixHeap
  import opened RadixRemoval
  import opened RadixOps

  datatype MatchResult = MatchResult(tenant: Tenant, matched: nat, inputChars: nat)

  class Tree {
    var nodes: Store
    var counts: map<Tenant, nat>
    var epoch: nat
    var nextId: nat
    ghost var paths: Paths

    ghost function Snap(): State
      reads this
    {
      State(nodes, paths, counts, epoch)
    }

    ghost predicate Valid()
      reads this
    {
      Inv(Snap()) && IdsBelow(nodes, nextId)
    }

    ghost function Contents(): Abstract
      requires Valid()
      reads this
    {
      View(Snap())
    }

    constructor ()
      ensures Valid() && Contents() == EMPTY
    {
      nodes := map[ROOT := Node("", map[], map[], None, None)];
      counts := map[];
      epoch := 0;
      nextId := 1;
      paths := map[ROOT := ""];
      new;
      forall t ensures OwnedSize(nodes, t) == CountOf(counts, t) {
        assert Weights(nodes, t) == map[];
      }
    }

    /** The insert that started in `g0` has reached `q`. */
    ghost predicate InsertedTo(g0: State, t: Tenant, q: NodeId)
      reads this
    {
      Reaches(g0, Snap(), t, q, nextId)
    }

    ghost predicate InsertDone(g0: State, t: Tenant, text: string)
      requires Wf(g0.nodes, g0.paths)
      reads this
    {
      Done(g0, Snap(), t, text) && IdsBelow(nodes, nextId)
    }

    method Enrol(t: Tenant)
      requires Valid()
      modifies this`nodes, this`counts
      ensures InsertedTo(old(Snap()), t, ROOT)
    {
      InsertStart(Snap(), t);
      CarriedStart(Snap(), t);
      CarriedTake(Snap(), Snap(), t, ROOT);
      if t !in nodes[ROOT].tenants {
        nodes := Stamp(nodes, ROOT, t, 0);
      }
      if t !in counts {
        counts := counts[t := 0];
      }
      assert Snap() == Taken(old(Snap()), ROOT, t);
    }

    /** No child starts with the next char: the rest of the text becomes a new leaf. */
    method AppendLeaf(ghost g0: State, q: NodeId, rest: string, t: Tenant)
      requires InsertedTo(g0, t, q) && rest != "" && rest[0] !in nodes[q].children
      modifies this
      ensures InsertDone(g0, t, old(paths[q]) + rest)
    {
      ghost var g, id := Snap(), nextId;
      counts := Bump(counts, t, |rest|);
      nodes := AddLeaf(nodes, q, nextId, rest, t, epoch);
      paths := paths[nextId := paths[q] + rest];
      epoch := epoch + 1;
      nextId := nextId + 1;
      assert Snap() == WithLeaf(g, t, q, id, rest);
      LeafDone(g0, g, t, q, id, rest);
    }

    /** The whole text has been walked: its last node gets the current tick. */
    method StampEnd(ghost g0: State, n: NodeId, t: Tenant)
      requires InsertedTo(g0, t, n)
      modifies this`nodes, this`epoch
      ensures InsertDone(g0, t, paths[n])
    {
      ghost var g := Snap();
      nodes := Stamp(nodes, n, t, epoch);
      epoch := epoch + 1;
      assert Snap() == WithStamp(g, n, t);
      StampReaches(g0, g, t, n, nextId);
    }

    /** Split the child `m` of `q` after `k` chars; `mid` is the new upper half. */
    method SplitChild(ghost g0: State, q: NodeId, m: NodeId, k: nat, t: Tenant) returns (mid: NodeId)
      requires InsertedTo(g0, t, q) && m in nodes && m != ROOT && nodes[m].parent == Some(q)
      requires 0 < k < |nodes[m].text|
      modifies this`nodes, this`paths, this`nextId
      ensures InsertedTo(g0, t, q) && paths[q] == old(paths[q])
      ensures mid in nodes && mid != ROOT && nodes[mid].parent == Some(q)
      ensures nodes[mid].text == old(nodes[m].text[..k])
    {
      ghost var g := Snap();
      CanSplit(g0, g, t, q, m, k, nextId);
      mid := nextId;
      paths := SplitPaths(nodes, paths, m, k, mid);
      nodes := Split(nodes, m, k, mid);
      nextId := nextId + 1;
      assert Snap() == WithSplit(g, m, k, mid);
      SplitReaches(g0, g, t, q, m, k, mid);
    }

    /** Step from `q` to its child `m`, taking ownership of `m` if it is missing. */
    method Descend(ghost g0: State, q: NodeId, m: NodeId, t: Tenant)
      requires InsertedTo(g0, t, q) && m in nodes && m != ROOT && nodes[m].parent == Some(q)
      modifies this`nodes, this`counts
      ensures InsertedTo(g0, t, m)
      ensures paths[m] == old(paths[q] + nodes[m].text)
    {
      ghost var g := Snap();
      if t !in nodes[m].tenants {
        counts := Bump(counts, t, |nodes[m].text|);
        nodes := Stamp(nodes, m, t, 0);
      }
      assert Snap() == Taken(g, m, t);
      TakeReaches(g0, g, t, q, m, nextId);
    }

    /** One round of the insert loop: either the rest of the text went into a new leaf, or the
        insert moved on to the child `next`, which holds the first `advance` chars of the rest. */
    method InsertStep(ghost g0: State, prev: NodeId, rest: string, t: Tenant)
      returns (done: bool, next: NodeId, advance: nat)
      requires InsertedTo(g0, t, prev) && rest != ""
      modifies this
      ensures done ==> InsertDone(g0, t, old(paths[prev]) + rest)
      ensures !done ==>
                && 0 < advance <= |rest| && InsertedTo(g0, t, next)
                && paths[next] + rest[advance..] == old(paths[prev]) + rest
    {
      var c := rest[0];
      if c !in nodes[prev].children {
        AppendLeaf(g0, prev, rest, t);
        return true, prev, 0;
      }
      assert ChildLinks(nodes, prev);
      next := nodes[prev].children[c];
      var k := SharedPrefixCount(rest, nodes[next].text);
      if k < |nodes[next].text| {
        next := SplitChild(g0, prev, next, k, t);
      }
      assert nodes[next].text == rest[..k];
      Descend(g0, prev, next, t);
      Rejoin(old(paths[prev]), rest, k);
      return false, next, k;
    }

    method Insert(text: string, t: Tenant)
      requires Valid()
      modifies this
      ensures Valid() && OpStep(old(Snap()), Op.Insert(text, t), Snap())
      ensures Contents() == Inserted(old(Contents()), text, t)
    {
      ghost var g0 := Snap();
      Enrol(t);
      var remaining, prev := text, ROOT;
      while remaining != ""
        invariant InsertedTo(g0, t, prev)
        invariant paths[prev] + remaining == text
        decreases |remaining|
      {
        var done, next, advance := InsertStep(g0, prev, remaining, t);
        if done { return; }
        prev, remaining := next, remaining[advance..];
      }
      assert paths[prev] == text;
      StampEnd(g0, prev, t);
    }

    method InsertCapped(text: string, t: Tenant, maxChars: nat) returns (admitted: bool)
      requires Valid()
      modifies this
      ensures Valid()
      ensures admitted == (CountOf(old(counts), t) < maxChars) == (SizeOf(old(Contents()), t) < maxChars)
      ensures admitted == Admits(old(Contents()), t, maxChars)
      ensures if admitted then OpStep(old(Snap()), Op.Insert(text, t), Snap()) else Snap() == old(Snap())
    {
      if maxChars == 0 {
        return false;
      }
      CountIsSize(Snap(), t);
      if t in counts && counts[t] >= maxChars {
        return false;
      }
      Insert(text, t);
      admitted := true;
    }

    /** The tenant to report for `n`: the cached one if it still owns `n`, else any owner. */
    method PickTenant(n: NodeId) returns (t: Tenant)
      requires Valid() && n in nodes
      modifies this`nodes
      ensures Valid() && Contents() == old(Contents()) && n in nodes
      ensures Reports(old(nodes)[n], t)
      ensures nodes == if CacheHolds(old(nodes)[n]) then old(nodes) else Remember(old(nodes), n, t)
    {
      if CacheHolds(nodes[n]) {
        t := nodes[n].lastTenant.value;
      } else {
        if nodes[n].tenants == map[] {
          t := SENTINEL;
        } else {
          t :| t in nodes[n].tenants;
        }
        RememberInert(Snap(), n, t);
        nodes := Remember(nodes, n, t);
      }
    }

    /** Every eighth match refreshes the stamp of the reported tenant. */
    method Touch(n: NodeId, t: Tenant)
      requires Valid() && n in nodes
      requires if nodes[n].tenants == map[] then n == ROOT && t == SENTINEL else t in nodes[n].tenants
      modifies this`nodes, this`epoch
      ensures Valid() && epoch == old(epoch) + 1
      ensures Contents() == Matched(old(Contents()), old(epoch))
      ensures nodes == if old(epoch) % 8 == 0 then Stamp(old(nodes), n, t, old(epoch)) else old(nodes)
    {
      assert nodes[ROOT].tenants == map[] <==> Contents().langs == map[];
      OwnersAtRoot(nodes, paths, n);
      if epoch % 8 == 0 {
        if t in nodes[n].tenants {
          RenewView(Snap(), n, t);
        } else {
          SentinelView(Snap());
        }
        nodes := Stamp(nodes, n, t, epoch);
      } else {
        TickInert(Snap());
      }
      epoch := epoch + 1;
    }

    /** Pick the tenant to report for the node a match ended on, and tick. */
    method Report(n: NodeId) returns (t: Tenant)
      requires Valid() && n in nodes
      modifies this`nodes, this`epoch
      ensures Valid() && OpStep(old(Snap()), Op.Match(n, t), Snap())
      ensures Contents() == Matched(old(Contents()), old(epoch))
    {
      ghost var g := Snap();
      t := PickTenant(n);
      ReportedOwner(g, n, t);
      Touch(n, t);
    }

    method PrefixMatchWithCounts(text: string) returns (r: MatchResult, ghost at: NodeId)
      requires Valid()
      modifies this`nodes, this`epoch
      ensures Valid() && Contents() == Matched(old(Contents()), old(epoch))
      ensures r.inputChars == |text|
      ensures Longest(old(Contents()), text, r.matched)
      ensures r.matched > 0 ==> text[..r.matched] in LangOf(old(Contents()), r.tenant)
      ensures r.tenant in old(Contents()).langs || (old(Contents()).langs == map[] && r.tenant == SENTINEL)
      ensures EndsOn(old(nodes), old(paths), at, text[..r.matched])
      ensures OpStep(old(Snap()), Op.Match(at, r.tenant), Snap())
    {
      var curr, matched := Walk(nodes, paths, text);
      ghost var g := Snap();
      var t := Report(curr);
      r, at := MatchResult(t, matched, |text|), curr;
      ReportedOwner(g, curr, t);
      WalkFound(g, curr, text, matched, t);
    }

    method PrefixMatch(text: string) returns (found: string, t: Tenant)
      requires Valid()
      modifies this`nodes, this`epoch
      ensures Valid() && Contents() == Matched(old(Contents()), old(epoch))
      ensures found <= text && Longest(old(Contents()), text, |found|)
      ensures found != "" ==> found in LangOf(old(Contents()), t)
      ensures t in old(Contents()).langs || (old(Contents()).langs == map[] && t == SENTINEL)
    {
      var r, _ := PrefixMatchWithCounts(text);
      found, t := text[..r.matched], r.tenant;
    }

    method PrefixMatchTenantCharCount(text: string, t: Tenant) returns (k: nat)
      requires Valid()
      ensures LongestFor(Contents(), t, text, k)
    {
      var curr, matched := WalkTenant(nodes, paths, text, t);
      k := matched;
      WalkTenantFound(Snap(), curr, text, matched, t);
    }

    method PrefixMatchTenant(text: string, t: Tenant) returns (found: string, ghost at: NodeId)
      requires Valid()
      modifies this`nodes, this`epoch
      ensures Valid() && Contents() == old(Contents())
      ensures found <= text && LongestFor(Contents(), t, text, |found|)
      ensures EndsOn(old(nodes), old(paths), at, found)
      ensures if t in old(nodes)[at].tenants
              then OpStep(old(Snap()), Op.MatchTenant(at, t), Snap())
              else Snap() == old(Snap())
    {
      var curr, matched := WalkTenant(nodes, paths, text, t);
      ghost var g := Snap();
      found, at := text[..matched], curr;
      if t in nodes[curr].tenants {
        nodes := Stamp(nodes, curr, t, epoch);
        epoch := epoch + 1;
        assert Snap() == WithStamp(g, curr, t);
        RenewView(g, curr, t);
      }
      WalkTenantFound(g, curr, text, matched, t);
    }

    /** Take the leaf of a heap entry away from its tenant; queue the parent if it became a leaf. */
    method EvictLeaf(h: HeapEntry, max: nat, ghost pq: Heap, rest: Heap) returns (queue: Heap)
      requires Valid() && Due(Snap(), Eviction(h.node, h.tenant), max)
      requires Queued(nodes, counts, max, pq) && Current(nodes, pq) && h in pq && rest == pq - multiset{h}
      modifies this`nodes, this`counts, this`paths
      ensures Valid() && Snap() == Apply(old(Snap()), Eviction(h.node, h.tenant))
      ensures Queued(nodes, counts, max, queue) && Current(nodes, queue)
      ensures Ownerships(nodes) < old(Ownerships(nodes))
    {
      ghost var g, g1 := Snap(), Apply(Snap(), Eviction(h.node, h.tenant));
      var n, t := h.node, h.tenant;
      var parent := nodes[n].parent;
      counts := Charge(counts, t, |nodes[n].text|);
      nodes := Disown(nodes, n, t);
      paths := g1.paths;
      assert Snap() == g1;
      queue := rest;
      if parent.Some? && Leaf(nodes, parent.value, t) {
        queue := rest + multiset{EntryFor(nodes, parent.value, t)};
      }
      EvictStep(g, max, pq, h, queue, nextId);
    }

    /** Evict least recently stamped leaves until every tenant fits; `log` lists what was evicted. */
    method EvictTenantBySize(max: nat) returns (ghost log: seq<Eviction>)
      requires Valid()
      modifies this`nodes, this`counts, this`paths
      ensures Valid()
      ensures OpStep(old(Snap()), Op.Evict(log, max), Snap())
      ensures Evicted(old(Contents()), max, Contents())
    {
      ghost var g0 := Snap();
      var pq := CollectLeaves(nodes, paths);
      log := [];
      while pq != multiset{}
        invariant Valid() && Snap() == After(g0, log) && ValidLog(g0, log, max)
        invariant Queued(nodes, counts, max, pq) && Current(nodes, pq)
        decreases Ownerships(nodes), |pq|
      {
        var h, rest := PopMin(pq);
        if h.tenant in counts && counts[h.tenant] <= max {
          DropKeepsQueued(nodes, counts, max, pq, h);
          pq := rest;
          continue;
        }
        if !Leaf(nodes, h.node, h.tenant) {
          DropKeepsQueued(nodes, counts, max, pq, h);
          pq := rest;
          continue;
        }
        LeastIsDue(Snap(), max, pq, h);
        pq := EvictLeaf(h, max, pq, rest);
        ghost var e := Eviction(h.node, h.tenant);
        assert (log + [e])[..|log|] == log;
        log := log + [e];
      }
      EmptyMeansExhausted(Snap(), max);
      LogEvicts(g0, log, max);
    }

    /** The recomputed sizes are the recorded ones, plus a zero for a sentinel without a record. */
    method GetUsedSizePerTenant() returns (used: map<Tenant, nat>)
      requires Valid()
      ensures used == counts + if SENTINEL in Contents().langs && SENTINEL !in counts
                               then map[SENTINEL := 0] else map[]
    {
      used := RadixTraversal.GetUsedSizePerTenant(nodes, paths);
      RecomputedAreRecorded(Snap(), used);
    }

    method RemoveTenant(t: Tenant)
      requires Valid()
      modifies this`nodes, this`counts, this`paths
      ensures Valid()
      ensures Contents() == Removed(old(Contents()), t)
      ensures forall n :: n in nodes ==> t !in nodes[n].tenants
      ensures OpStep(old(Snap()), Op.Remove(t), Snap())
    {
      ghost var g0 := Snap();
      var queue := TenantLeaves(nodes, paths, t);
      while queue != []
        invariant IdsBelow(nodes, nextId) && Removing(g0, Snap(), t)
        invariant QueuesLeaves(nodes, t, queue) && OthersKept(g0.nodes, nodes, t)
        decreases Ownerships(nodes)
      {
        var n := queue[0];
        assert n in queue;
        queue := TakeOff(g0, n, t, queue);
      }
      forall m ensures !Leaf(nodes, m, t) { assert m !in queue; }
      RemovedView(g0, Snap(), t);
      forall n | n in nodes ensures t !in nodes[n].tenants { NoLeafNoNode(nodes, paths, t, n); }
      counts := counts - {t};
    }

    method TakeOff(ghost g0: State, n: NodeId, t: Tenant, queue: seq<NodeId>) returns (rest: seq<NodeId>)
      requires Wf(g0.nodes, g0.paths) && IdsBelow(nodes, nextId) && Removing(g0, Snap(), t)
      requires QueuesLeaves(nodes, t, queue) && queue != [] && n == queue[0] && Leaf(nodes, n, t)
      requires OthersKept(g0.nodes, nodes, t)
      modifies this`nodes, this`paths
      ensures IdsBelow(nodes, nextId) && Removing(g0, Snap(), t)
      ensures QueuesLeaves(nodes, t, rest) && OthersKept(g0.nodes, nodes, t)
      ensures Ownerships(nodes) < old(Ownerships(nodes))
    {
      assert n != ROOT ==> Hangs(nodes, paths, n);
      OwnershipsShrink(nodes, n, t);
      RemovingStep(g0, Snap(), t, n);
      QueueStep(nodes, paths, t, queue);
      OthersKeptStep(g0.nodes, nodes, t, n);
      DisownStamps(nodes, n, t);
      var parent := nodes[n].parent;
      var shrunk := Disown(nodes, n, t);
      paths := DisownPaths(nodes, paths, n, t);
      nodes := shrunk;
      rest := queue[1..];
      if parent.Some? && Leaf(shrunk, parent.value, t) {
        rest := rest + [parent.value];
      } else {
        assert rest == rest + [];
      }
    }
  }

  /** A full traversal's result: an entry per owner, holding what that owner owns. */
  ghost predicate Recomputed(s: Store, used: map<Tenant, nat>) {
    && (forall t :: t in used <==> exists n :: n in s && t in s[n].tenants)
    && (forall t :: SizeIn(used, t) == OwnedSize(s, t))
  }

  lemma RecomputedAt(g: State, used: map<Tenant, nat>, t: Tenant)
    requires Inv(g) && Recomputed(g.nodes, used)
    ensures t in used <==> t in g.counts || (t == SENTINEL && SENTINEL in View(g).langs)
    ensures t in used ==> used[t] == CountOf(g.counts, t)
  {
    if n :| n in g.nodes && t in g.nodes[n].tenants { OwnersAtRoot(g.nodes, g.paths, n); }
    assert SizeIn(used, t) == OwnedSize(g.nodes, t);
  }

  lemma RecomputedAreRecorded(g: State, used: map<Tenant, nat>)
    requires Inv(g) && Recomputed(g.nodes, used)
    ensures used == g.counts + if SENTINEL in View(g).langs && SENTINEL !in g.counts
                               then map[SENTINEL := 0] else map[]
  {
    var extra := SENTINEL in View(g).langs;
    forall t
      ensures t in used <==> t in g.counts || (t == SENTINEL && extra)
      ensures t in used ==> used[t] == CountOf(g.counts, t)
    {
      RecomputedAt(g, used, t);
    }
    SameEntries(used, g.counts, extra);
  }

  /** A tree whose recomputed sizes are not the recorded ones: an empty one, matched at tick zero. */
  lemma SentinelRecomputed() returns (g: State, used: map<Tenant, nat>)
    ensures Inv(g) && Recomputed(g.nodes, used) && used == map[SENTINEL := 0] && g.counts == map[]
  {
    var s: Store := map[ROOT := Node("", map[], map[], None, None)];
    var g0 := State(s, map[ROOT := ""], map[], 0);
    forall t ensures OwnedSize(s, t) == CountOf(g0.counts, t) { assert Weights(s, t) == map[]; }
    RememberInert(g0, ROOT, SENTINEL);
    SentinelView(g0.(nodes := Remember(s, ROOT, SENTINEL)));
    g := g0.(nodes := AfterMatch(s, ROOT, SENTINEL, 0), epoch := 1);
    used := map[SENTINEL := 0];
    assert ROOT in g.nodes && SENTINEL in g.nodes[ROOT].tenants;
    forall t ensures SizeIn(used, t) == OwnedSize(g.nodes, t) {
      assert OwnedSize(g.nodes, t) == CountOf(g.counts, t);
    }
  }

  lemma SameEntries(used: map<Tenant, nat>, counts: map<Tenant, nat>, extra: bool)
    requires forall t :: t in used <==> t in counts || (t == SENTINEL && extra)
    requires forall t :: t in used ==> used[t] == CountOf(counts, t)
    ensures used == counts + if extra && SENTINEL !in counts then map[SENTINEL := 0] else map[]
  {
  }

  /** Right after an insert of a text that no tenant held, a match of that text reports the
      tenant it was inserted for. */
  lemma NewTextReportsInserter(g0: State, g: State, t: Tenant, text: string, at: NodeId, u: Tenant)
    requires Inv(g0) && Done(g0, g, t, text) && text != "" && forall v :: text !in LangOf(View(g0), v)
    requires EndsOn(g.nodes, g.paths, at, text) && Reports(g.nodes[at], u)
    ensures u == t
  {
    var n :| n in g.nodes && g.paths[n] == text && FreshestAt(g.nodes, n, t);
    OnAtEnd(g.nodes, g.paths, n);
    EndsOnUnique(g.nodes, g.paths, at, n, text);
    assert SettledAt(g0, g, n, t, text);
    if m :| From(g0, g, n, m, t, Some(g0.epoch)) {
      HeldBySomeone(g0, m, text);
    }
  }

  /** Every prefix of a path is held by some tenant. */
  lemma HeldBySomeone(g: State, m: NodeId, x: string)
    requires Inv(g) && m in g.nodes && x != "" && x <= g.paths[m]
    ensures exists v :: x in LangOf(View(g), v)
  {
    assert Hangs(g.nodes, g.paths, m);
    var v :| v in g.nodes[m].tenants;
    ViewLang(g, v);
    LangMember(g.nodes, g.paths, v, x);
    assert Spells(g.nodes, g.paths, v, m, x);
  }

  /** What a match reports is an owner, and the sentinel only for the root of a tree without owners. */
  lemma ReportedOwner(g: State, n: NodeId, t: Tenant)
    requires Inv(g) && n in g.nodes && Reports(g.nodes[n], t)
    ensures if g.nodes[n].tenants == map[] then n == ROOT && t == SENTINEL else t in g.nodes[n].tenants
    ensures t in View(g).langs || (View(g).langs == map[] && t == SENTINEL)
  {
    assert n != ROOT ==> Hangs(g.nodes, g.paths, n);
    OwnersAtRoot(g.nodes, g.paths, n);
    assert g.nodes[ROOT].tenants == map[] ==> View(g).langs == map[];
  }

  /** What a finished walk says about the abstract state. */
  lemma WalkFound(g: State, curr: NodeId, text: string, matched: nat, t: Tenant)
    requires Inv(g) && matched <= |text| && EndsOn(g.nodes, g.paths, curr, text[..matched])
    requires NoneLonger(g.nodes, g.paths, text, matched)
    requires matched > 0 ==> t in g.nodes[curr].tenants
    ensures Longest(View(g), text, matched)
    ensures matched > 0 ==> text[..matched] in LangOf(View(g), t)
  {
    forall u, x | x in LangOf(View(g), u) && x <= text ensures |x| <= matched {
      ViewLang(g, u);
      assert NoLonger(g.nodes, g.paths, u, text, matched);
    }
    if matched > 0 {
      ViewLang(g, t);
      LangMember(g.nodes, g.paths, t, text[..matched]);
      assert Spells(g.nodes, g.paths, t, curr, text[..matched]);
    }
  }

  lemma WalkTenantFound(g: State, curr: NodeId, text: string, matched: nat, t: Tenant)
    requires Inv(g) && matched <= |text| && EndsOn(g.nodes, g.paths, curr, text[..matched])
    requires NoLonger(g.nodes, g.paths, t, text, matched)
    requires matched > 0 ==> t in g.nodes[curr].tenants
    ensures LongestFor(View(g), t, text, matched)
  {
    ViewLang(g, t);
    if matched > 0 {
      LangMember(g.nodes, g.paths, t, text[..matched]);
      assert Spells(g.nodes, g.paths, t, curr, text[..matched]);
    }
  }
}
