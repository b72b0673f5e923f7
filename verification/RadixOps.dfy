/** The operations of the tree as steps from state to state, exact on nodes, paths and stamps. */
module RadixOps {
  import opened Tenants
  import opened RadixNodes
  import opened RadixSteps
  import opened RadixState
  import opened RadixStamps
  import opened RadixEviction
  import opened RadixRemoval

  /** The cached tenant of a node is good as long as it still owns the node. */
  predicate CacheHolds(node: Node) {
    node.lastTenant.Some? && node.lastTenant.value in node.tenants
  }

  /** What may be reported for a node: the cached tenant if it holds, else any owner, and the
      sentinel where there is none. */
  predicate Reports(node: Node, t: Tenant) {
    if CacheHolds(node) then t == node.lastTenant.value
    else if node.tenants == map[] then t == SENTINEL
    else t in node.tenants
  }

  /** The store after a match that ended on `n` and reported `t`. */
  function AfterMatch(s: Store, n: NodeId, t: Tenant, epoch: nat): Store
    requires n in s
  {
    var cached := if CacheHolds(s[n]) then s else Remember(s, n, t);
    if epoch % 8 == 0 then Stamp(cached, n, t, epoch) else cached
  }

  /** The next match that ends on the same node reports the same tenant. */
  lemma MatchIsSticky(s: Store, n: NodeId, t: Tenant, epoch: nat, u: Tenant)
    requires n in s && Reports(s[n], t) && Reports(AfterMatch(s, n, t, epoch)[n], u)
    ensures u == t
  {
    assert epoch % 8 == 0 ==> t in AfterMatch(s, n, t, epoch)[n].tenants;
  }

  /** Of any eight ticks in a row, a match stamps at exactly one. */
  lemma OneInEight(s: Store, n: NodeId, t: Tenant, e: nat) returns (k: nat)
    requires n in s && t in s[n].tenants && s[n].tenants[t] < e
    ensures e <= k < e + 8
    ensures forall j: nat :: e <= j < e + 8 ==> (AfterMatch(s, n, t, j)[n].tenants[t] == j <==> j == k)
  {
    k := (e + 7) / 8 * 8;
  }

  /** `at` is the node a match ended on, `log` what an eviction took away. */
  datatype Op =
    | Insert(text: string, tenant: Tenant)
    | Match(at: NodeId, tenant: Tenant)
    | MatchTenant(at: NodeId, tenant: Tenant)
    | Evict(log: seq<Eviction>, max: nat)
    | Remove(tenant: Tenant)

  /** What each operation promises about the state it leaves. */
  ghost predicate OpStep(g: State, op: Op, g': State)
    requires Wf(g.nodes, g.paths)
  {
    && Inv(g')
    && match op
       case Insert(text, t) => Done(g, g', t, text)
       case Match(n, t) =>
         && n in g.nodes && Reports(g.nodes[n], t)
         && g' == g.(nodes := AfterMatch(g.nodes, n, t, g.epoch), epoch := g.epoch + 1)
       case MatchTenant(n, t) => n in g.nodes && t in g.nodes[n].tenants && g' == WithStamp(g, n, t)
       case Evict(log, max) => ValidLog(g, log, max) && Exhausted(g', max) && g' == After(g, log)
       case Remove(t) =>
         && OthersKept(g.nodes, g'.nodes, t) && PathsKept(g.paths, g'.paths)
         && g'.counts == g.counts - {t} && g'.epoch == g.epoch
         && forall n :: n in g'.nodes ==> t !in g'.nodes[n].tenants
  }
}
