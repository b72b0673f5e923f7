/** What an insert does to owners, stamps and cached tenants: where every node got its own from. */
module RadixStamps {
  import opened Tenants
  import opened Options
  import opened RadixNodes
  import opened RadixSteps
  import opened RadixState

  /** Owners after an insert for `t` passed through: `t` joins with stamp zero where it was missing,
      and has stamp `end` where the text ends. */
  ghost predicate OwnersFrom(before: map<Tenant, nat>, after: map<Tenant, nat>, t: Tenant, end: Option<nat>) {
    match end
    case None => after == before || (t !in before && after == before[t := 0])
    case Some(e) => after == before[t := e]
  }

  /** `n` has its owners and cached tenant from `m`: from itself if it was there, with the same path,
      else from the node it was split off, which lies below it. */
  ghost predicate From(g0: State, g: State, n: NodeId, m: NodeId, t: Tenant, end: Option<nat>) {
    && n in g.nodes && n in g.paths && m in g0.nodes && m in g0.paths
    && (n in g0.nodes ==> m == n && g.paths[n] == g0.paths[n])
    && g.paths[n] <= g0.paths[m]
    && g.nodes[n].lastTenant == g0.nodes[m].lastTenant
    && OwnersFrom(g0.nodes[m].tenants, g.nodes[n].tenants, t, end)
  }

  ghost predicate Sourced(g0: State, g: State, n: NodeId, t: Tenant, end: Option<nat>) {
    exists m :: From(g0, g, n, m, t, end)
  }

  /** A node hung up by the insert itself: owned by `t` alone, which is also its cached tenant. */
  ghost predicate NewLeaf(g0: State, g: State, n: NodeId, t: Tenant) {
    n in g.nodes && n !in g0.nodes && g.nodes[n].tenants == map[t := g0.epoch] && g.nodes[n].lastTenant == Some(t)
  }

  /** While the insert for `t` walks down: every node was there or was split off one that was. */
  ghost predicate Carried(g0: State, g: State, t: Tenant) {
    && g0.nodes.Keys <= g.nodes.Keys
    && forall n {:trigger Sourced(g0, g, n, t, None)} :: n in g.nodes ==> Sourced(g0, g, n, t, None)
  }

  /** After it: the same, except for the node that ends `text`, which has the new stamp. */
  ghost predicate Settled(g0: State, g: State, t: Tenant, text: string) {
    && g0.nodes.Keys <= g.nodes.Keys == g.paths.Keys
    && forall n {:trigger SettledAt(g0, g, n, t, text)} :: n in g.nodes ==> SettledAt(g0, g, n, t, text)
  }

  ghost predicate SettledAt(g0: State, g: State, n: NodeId, t: Tenant, text: string) {
    n in g.paths && if g.paths[n] != text then Sourced(g0, g, n, t, None)
                    else Sourced(g0, g, n, t, Some(g0.epoch)) || NewLeaf(g0, g, n, t)
  }

  lemma CarriedStart(g: State, t: Tenant)
    requires g.paths.Keys == g.nodes.Keys
    ensures Carried(g, g, t)
  {
    forall n | n in g.nodes ensures Sourced(g, g, n, t, None) {
      assert From(g, g, n, n, t, None);
    }
  }

  lemma CarriedTake(g0: State, g: State, t: Tenant, n: NodeId)
    requires Carried(g0, g, t) && n in g.nodes
    ensures Carried(g0, Taken(g, n, t), t)
  {
    var g' := Taken(g, n, t);
    forall k | k in g'.nodes ensures Sourced(g0, g', k, t, None) {
      assert Sourced(g0, g, k, t, None);
      var m :| From(g0, g, k, m, t, None);
      assert From(g0, g', k, m, t, None);
    }
  }

  lemma SplitTenants(s: Store, m: NodeId, k: nat, id: NodeId, n: NodeId)
    requires m in s && s[m].parent.Some? && s[m].parent.value in s && 0 < k < |s[m].text| && id !in s
    ensures var s' := Split(s, m, k, id);
            var was := if n == id then m else n;
            (n in s' <==> was in s)
            && (n in s' ==> s'[n].tenants == s[was].tenants && s'[n].lastTenant == s[was].lastTenant)
  {
  }

  lemma CarriedSplit(g0: State, g: State, t: Tenant, m: NodeId, k: nat, id: NodeId)
    requires Carried(g0, g, t) && Splittable(g.nodes, g.paths, m, k, id) && id !in g0.nodes
    ensures Carried(g0, WithSplit(g, m, k, id), t)
  {
    var g' := WithSplit(g, m, k, id);
    forall n | n in g'.nodes ensures Sourced(g0, g', n, t, None) {
      SplitTenants(g.nodes, m, k, id, n);
      var was := if n == id then m else n;
      assert Sourced(g0, g, was, t, None);
      var src :| From(g0, g, was, src, t, None);
      assert g'.paths[n] <= g.paths[was];
      assert From(g0, g', n, src, t, None);
    }
    forall n | n in g0.nodes ensures n in g'.nodes { SplitTenants(g.nodes, m, k, id, n); }
  }

  lemma SettledLeaf(g0: State, g: State, t: Tenant, q: NodeId, id: NodeId, text: string)
    requires Carried(g0, g, t) && g.epoch == g0.epoch && q in g.nodes && q in g.paths && id !in g.nodes && text != ""
    requires Wf(WithLeaf(g, t, q, id, text).nodes, WithLeaf(g, t, q, id, text).paths)
    ensures Settled(g0, WithLeaf(g, t, q, id, text), t, g.paths[q] + text)
  {
    var g' := WithLeaf(g, t, q, id, text);
    forall n | n in g'.nodes ensures SettledAt(g0, g', n, t, g.paths[q] + text) {
      if n == id {
        assert NewLeaf(g0, g', n, t);
      } else {
        if g'.paths[n] == g'.paths[id] { PathsInjective(g'.nodes, g'.paths, n, id); }
        assert Sourced(g0, g, n, t, None);
        var m :| From(g0, g, n, m, t, None);
        assert From(g0, g', n, m, t, None);
      }
    }
  }

  lemma SettledStamp(g0: State, g: State, t: Tenant, n: NodeId)
    requires Carried(g0, g, t) && g.epoch == g0.epoch && Wf(g.nodes, g.paths) && n in g.nodes
    ensures Settled(g0, WithStamp(g, n, t), t, g.paths[n])
  {
    var g' := WithStamp(g, n, t);
    forall k | k in g'.nodes ensures SettledAt(g0, g', k, t, g.paths[n]) {
      if g.paths[k] == g.paths[n] { PathsInjective(g.nodes, g.paths, k, n); }
      assert Sourced(g0, g, k, t, None);
      var m :| From(g0, g, k, m, t, None);
      assert From(g0, g', k, m, t, if k == n then Some(g0.epoch) else None);
    }
  }

  // ---------- the two ways an insert ends ----------

  ghost predicate Done(g0: State, g: State, t: Tenant, text: string)
    requires Wf(g0.nodes, g0.paths)
  {
    InsertedIn(g0, g, t, text) && Settled(g0, g, t, text) && g.epoch == g0.epoch + 1
  }

  lemma LeafDone(g0: State, g: State, t: Tenant, q: NodeId, id: NodeId, text: string)
    requires q in g.nodes && q in g.paths && Inserting(g0, g, t, g.paths[q]) && t in g.nodes[q].tenants
    requires text != "" && text[0] !in g.nodes[q].children && IdsBelow(g.nodes, id)
    requires Carried(g0, g, t) && g.epoch == g0.epoch
    ensures Done(g0, WithLeaf(g, t, q, id, text), t, g.paths[q] + text)
    ensures IdsBelow(WithLeaf(g, t, q, id, text).nodes, id + 1)
  {
    InsertLeafDone(g0, g, t, q, id, text);
    SettledLeaf(g0, g, t, q, id, text);
  }

  lemma StampDone(g0: State, g: State, t: Tenant, n: NodeId)
    requires n in g.nodes && n in g.paths && Inserting(g0, g, t, g.paths[n]) && t in g.nodes[n].tenants
    requires Carried(g0, g, t) && g.epoch == g0.epoch
    ensures Done(g0, WithStamp(g, n, t), t, g.paths[n])
  {
    InsertStampDone(g0, g, t, n);
    SettledStamp(g0, g, t, n);
  }

  // ---------- an insert on its way ----------

  /** The insert for `t` that started in `g0` has reached `q`; new nodes are numbered from `next`. */
  ghost predicate Reaches(g0: State, g: State, t: Tenant, q: NodeId, next: NodeId) {
    && IdsBelow(g.nodes, next) && IdsBelow(g0.nodes, next)
    && q in g.nodes && q in g.paths && t in g.nodes[q].tenants
    && Inserting(g0, g, t, g.paths[q]) && g.epoch == g0.epoch
    && Carried(g0, g, t)
  }

  lemma CanSplit(g0: State, g: State, t: Tenant, q: NodeId, m: NodeId, k: nat, id: NodeId)
    requires Reaches(g0, g, t, q, id) && m in g.nodes && m != ROOT && g.nodes[m].parent == Some(q)
    requires 0 < k < |g.nodes[m].text|
    ensures Splittable(g.nodes, g.paths, m, k, id)
  {
    assert Hangs(g.nodes, g.paths, m);
  }

  lemma SplitReaches(g0: State, g: State, t: Tenant, q: NodeId, m: NodeId, k: nat, id: NodeId)
    requires Reaches(g0, g, t, q, id) && m in g.nodes && m != ROOT && g.nodes[m].parent == Some(q)
    requires 0 < k < |g.nodes[m].text|
    ensures Splittable(g.nodes, g.paths, m, k, id)
    ensures var g' := WithSplit(g, m, k, id);
            && Reaches(g0, g', t, q, id + 1) && g'.paths[q] == g.paths[q]
            && id in g'.nodes && id != ROOT && g'.nodes[id].parent == Some(q)
            && g'.nodes[id].text == g.nodes[m].text[..k]
  {
    assert Hangs(g.nodes, g.paths, m);
    assert q != m by { assert |g.paths[q]| < |g.paths[m]|; }
    InsertSplit(g0, g, t, g.paths[q], m, k, id);
    SplitClocked(g.nodes, g.paths, m, k, id, g.epoch);
    CarriedSplit(g0, g, t, m, k, id);
    SplitTenants(g.nodes, m, k, id, q);
  }

  lemma TakeReaches(g0: State, g: State, t: Tenant, q: NodeId, m: NodeId, next: NodeId)
    requires Reaches(g0, g, t, q, next) && m in g.nodes && m != ROOT && g.nodes[m].parent == Some(q)
    ensures Reaches(g0, Taken(g, m, t), t, m, next)
    ensures m in g.paths && g.paths[m] == g.paths[q] + g.nodes[m].text
  {
    assert Hangs(g.nodes, g.paths, m);
    InsertDescend(g0, g, t, q, m);
    CarriedTake(g0, g, t, m);
  }

  lemma StampReaches(g0: State, g: State, t: Tenant, n: NodeId, next: NodeId)
    requires Reaches(g0, g, t, n, next)
    ensures Done(g0, WithStamp(g, n, t), t, g.paths[n]) && IdsBelow(WithStamp(g, n, t).nodes, next)
  {
    StampDone(g0, g, t, n);
  }
}
