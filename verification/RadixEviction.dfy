/** Eviction as a log of single removals, and what every such log guarantees. */
module RadixEviction {
  import opened Tenants
  import opened Options
  import opened MapSums
  import opened Text
  import opened TreeSpec
  import opened RadixNodes
  import opened RadixSteps
  import opened RadixState

  datatype Eviction = Eviction(node: NodeId, tenant: Tenant)

  /** A tenant without a recorded size counts as over budget. */
  predicate OverBudget(counts: map<Tenant, nat>, t: Tenant, max: nat) {
    t in counts ==> counts[t] > max
  }

  function SaturatingSub(a: nat, b: nat): nat {
    if a >= b then a - b else 0
  }

  function Charge(counts: map<Tenant, nat>, t: Tenant, k: nat): map<Tenant, nat> {
    if t in counts then counts[t := SaturatingSub(counts[t], k)] else counts
  }

  ghost function Apply(g: State, e: Eviction): State {
    if e.node !in g.nodes then g
    else State(Disown(g.nodes, e.node, e.tenant), DisownPaths(g.nodes, g.paths, e.node, e.tenant),
               Charge(g.counts, e.tenant, |g.nodes[e.node].text|), g.epoch)
  }

  ghost function After(g: State, log: seq<Eviction>): State {
    if log == [] then g else Apply(After(g, log[..|log| - 1]), log[|log| - 1])
  }

  /** The least recently stamped leaf of a tenant that is over budget. */
  ghost predicate Due(g: State, e: Eviction, max: nat) {
    && Leaf(g.nodes, e.node, e.tenant)
    && OverBudget(g.counts, e.tenant, max)
    && forall m :: Leaf(g.nodes, m, e.tenant) ==>
         g.nodes[e.node].tenants[e.tenant] <= g.nodes[m].tenants[e.tenant]
  }

  ghost predicate ValidLog(g: State, log: seq<Eviction>, max: nat) {
    log == [] || (ValidLog(g, log[..|log| - 1], max) && Due(After(g, log[..|log| - 1]), log[|log| - 1], max))
  }

  /** No tenant over budget has a leaf left. */
  ghost predicate Exhausted(g: State, max: nat) {
    forall n, t :: Leaf(g.nodes, n, t) ==> !OverBudget(g.counts, t, max)
  }

  // ---------- one removal ----------

  /** A tenant whose leaf is the root has no text, so its recorded size is zero. */
  lemma RootLeafSize(g: State, t: Tenant)
    requires Inv(g) && Leaf(g.nodes, ROOT, t)
    ensures CountOf(g.counts, t) == 0
  {
    RootLeafOwnsNothingElse(g.nodes, g.paths, t);
    var w := Weights(g.nodes, t);
    assert w == map[ROOT := 0];
    SumAt(w, ROOT);
    assert w - {ROOT} == map[];
    assert OwnedSize(g.nodes, t) == CountOf(g.counts, t);
  }

  /** The recorded size covers the text taken away: the subtraction never saturates. */
  lemma DueSize(g: State, e: Eviction, max: nat, u: Tenant)
    requires Inv(g) && Due(g, e, max)
    ensures var g' := Apply(g, e);
            && g'.counts.Keys == g.counts.Keys
            && OwnedSize(g'.nodes, u) == CountOf(g'.counts, u)
            && CountOf(g'.counts, u) + (if u == e.tenant then |g.nodes[e.node].text| else 0) == CountOf(g.counts, u)
  {
    assert e.node != ROOT ==> Hangs(g.nodes, g.paths, e.node);
    DisownSize(g.nodes, e.node, e.tenant, u);
    assert OwnedSize(g.nodes, u) == CountOf(g.counts, u);
    assert u == e.tenant ==> CountOf(g.counts, u) >= |g.nodes[e.node].text|;
  }

  lemma DueInv(g: State, e: Eviction, max: nat)
    requires Inv(g) && Due(g, e, max)
    ensures Inv(Apply(g, e))
  {
    var g' := Apply(g, e);
    DisownWf(g.nodes, g.paths, e.node, e.tenant);
    forall u ensures OwnedSize(g'.nodes, u) == CountOf(g'.counts, u) {
      DueSize(g, e, max, u);
    }
    if e.node == ROOT {
      RootLeafSize(g, e.tenant);
      assert e.tenant !in g.counts;
    }
    DisownRoot(g.nodes, g.paths, e.node, e.tenant);
    DisownClocked(g.nodes, e.node, e.tenant, g.epoch);
  }

  lemma DisownRoot(s: Store, p: Paths, n: NodeId, t: Tenant)
    requires Wf(s, p) && n in s
    ensures ROOT in Disown(s, n, t)
    ensures Disown(s, n, t)[ROOT].tenants == s[ROOT].tenants - if n == ROOT then {t} else {}
  {
    assert n != ROOT ==> Hangs(s, p, n);
  }

  lemma DisownClocked(s: Store, n: NodeId, t: Tenant, e: nat)
    requires n in s && Clocked(s, e) && ROOT in Disown(s, n, t)
    ensures Clocked(Disown(s, n, t), e)
  {
    DisownStamps(s, n, t);
  }

  lemma DisownStamps(s: Store, n: NodeId, t: Tenant)
    requires n in s
    ensures var s' := Disown(s, n, t);
            && s'.Keys <= s.Keys
            && forall m, u {:trigger s'[m].tenants[u]} :: m in s' && u in s'[m].tenants ==>
                 u in s[m].tenants && s'[m].tenants[u] == s[m].tenants[u]
  {
  }

  lemma DueLang(g: State, e: Eviction, max: nat, u: Tenant)
    requires Inv(g) && Due(g, e, max) && Inv(Apply(g, e))
    ensures var g' := Apply(g, e);
            && Lang(g'.nodes, g'.paths, u) <= Lang(g.nodes, g.paths, u)
            && (u != e.tenant ==> Lang(g'.nodes, g'.paths, u) == Lang(g.nodes, g.paths, u))
            && (u == e.tenant && e.node != ROOT ==>
                  Lang(g'.nodes, g'.paths, u) == Lang(g.nodes, g.paths, u) - StringsOn(g.nodes, g.paths, e.node))
  {
    DisownLang(g.nodes, g.paths, e.node, e.tenant, u);
  }

  // ---------- whole logs ----------

  lemma {:induction false} LogInv(g: State, log: seq<Eviction>, max: nat)
    requires Inv(g) && ValidLog(g, log, max)
    ensures Inv(After(g, log)) && After(g, log).counts.Keys == g.counts.Keys
  {
    if log != [] {
      var h, e := After(g, log[..|log| - 1]), log[|log| - 1];
      LogInv(g, log[..|log| - 1], max);
      DueInv(h, e, max);
      DueSize(h, e, max, e.tenant);
    }
  }

  /** Evictions only shrink languages. */
  lemma {:induction false} LogShrinks(g: State, log: seq<Eviction>, max: nat, u: Tenant)
    requires Inv(g) && ValidLog(g, log, max)
    ensures Inv(After(g, log))
    ensures Lang(After(g, log).nodes, After(g, log).paths, u) <= Lang(g.nodes, g.paths, u)
  {
    LogInv(g, log, max);
    if log != [] {
      LogShrinks(g, log[..|log| - 1], max, u);
      DueLang(After(g, log[..|log| - 1]), log[|log| - 1], max, u);
    }
  }

  /** A tenant within budget is never picked. */
  lemma {:induction false} LogSparesCount(g: State, log: seq<Eviction>, max: nat, u: Tenant)
    requires Inv(g) && ValidLog(g, log, max) && u in g.counts && g.counts[u] <= max
    ensures CountOf(After(g, log).counts, u) == g.counts[u]
    ensures log != [] ==> log[|log| - 1].tenant != u
  {
    if log != [] {
      var front := log[..|log| - 1];
      LogSparesCount(g, front, max, u);
      LogInv(g, front, max);
      DueSize(After(g, front), log[|log| - 1], max, u);
    }
  }

  /** A tenant within budget is left as it was. */
  lemma {:induction false} LogSpares(g: State, log: seq<Eviction>, max: nat, u: Tenant)
    requires Inv(g) && ValidLog(g, log, max) && u in g.counts && g.counts[u] <= max
    ensures Inv(After(g, log)) && CountOf(After(g, log).counts, u) == g.counts[u]
    ensures Lang(After(g, log).nodes, After(g, log).paths, u) == Lang(g.nodes, g.paths, u)
  {
    LogInv(g, log, max);
    LogSparesCount(g, log, max, u);
    if log != [] {
      var front := log[..|log| - 1];
      LogSpares(g, front, max, u);
      DueLang(After(g, front), log[|log| - 1], max, u);
    }
  }

  ghost function TextLen(g: State, e: Eviction): nat {
    if e.node in g.nodes then |g.nodes[e.node].text| else 0
  }

  /** Eviction does not overshoot: before its last removal, number `i`, a trimmed tenant was still
      over budget, so what it keeps plus that last text exceeds the budget. */
  lemma {:induction false} LogTrims(g: State, log: seq<Eviction>, max: nat, i: nat)
    requires Inv(g) && ValidLog(g, log, max) && i < |log| && log[i].tenant in g.counts
    requires forall j :: i < j < |log| ==> log[j].tenant != log[i].tenant
    ensures CountOf(After(g, log).counts, log[i].tenant) + TextLen(After(g, log[..i]), log[i]) > max
    decreases |log|
  {
    var front, e, t := log[..|log| - 1], log[|log| - 1], log[i].tenant;
    LogInv(g, front, max);
    DueSize(After(g, front), e, max, t);
    if i < |log| - 1 {
      LogTrims(g, front, max, i);
      assert front[..i] == log[..i];
    }
  }

  /** What eviction does to one counted tenant. */
  lemma LogEvictsOne(g: State, log: seq<Eviction>, max: nat, t: Tenant)
    requires Inv(g) && ValidLog(g, log, max) && t in g.counts
    ensures Inv(After(g, log)) && t in After(g, log).counts
    ensures var a, b := View(g), View(After(g, log));
            && LangOf(b, t) <= LangOf(a, t)
            && SizeOf(b, t) == After(g, log).counts[t]
            && (WithinBudget(a, t, max) ==> LangOf(b, t) == LangOf(a, t))
  {
    var h := After(g, log);
    LogShrinks(g, log, max, t);
    LogInv(g, log, max);
    ViewLang(g, t);
    ViewLang(h, t);
    CountIsSize(g, t);
    CountIsSize(h, t);
    if g.counts[t] <= max { LogSpares(g, log, max, t); }
  }

  /** With no leaf over budget left, exactly the counted tenants are there, and they fit. */
  lemma ExhaustedFits(g: State, max: nat)
    requires Inv(g) && Exhausted(g, max)
    ensures View(g).langs.Keys == g.counts.Keys == View(g).counted
    ensures forall t :: t in g.counts ==> g.counts[t] <= max
  {
    forall t | t in g.nodes[ROOT].tenants ensures !OverBudget(g.counts, t, max) {
      var l := LeafBelow(g.nodes, g.paths, ROOT, t);
    }
  }

  /** When nothing is left to evict, the abstract state is an eviction of the first one. */
  lemma LogEvicts(g: State, log: seq<Eviction>, max: nat)
    requires Inv(g) && ValidLog(g, log, max) && Exhausted(After(g, log), max)
    ensures Inv(After(g, log)) && Evicted(View(g), max, View(After(g, log)))
  {
    LogInv(g, log, max);
    var a, b := View(g), View(After(g, log));
    ExhaustedFits(After(g, log), max);
    ViewConsistent(After(g, log));
    forall t | t in a.counted
      ensures "" in LangOf(b, t) && PrefixClosed(LangOf(b, t))
      ensures LangOf(b, t) <= LangOf(a, t) && SizeOf(b, t) <= max
      ensures WithinBudget(a, t, max) ==> LangOf(b, t) == LangOf(a, t)
    {
      LogEvictsOne(g, log, max, t);
      assert LangOf(b, t) == b.langs[t];
    }
  }

  // ---------- recent texts survive ----------

  /** `t` owns `n` with a stamp of `e` or later. */
  ghost predicate Recent(s: Store, n: NodeId, t: Tenant, e: nat) {
    n in s && t in s[n].tenants && s[n].tenants[t] >= e
  }

  /** All the non-empty prefixes of the paths of such nodes. */
  ghost function RecentStrings(s: Store, p: Paths, t: Tenant, e: nat): set<string>
    requires p.Keys == s.Keys
  {
    set n, x | n in s && Recent(s, n, t, e) && x in Prefixes(p[n]) && x != "" :: x
  }

  lemma SubsetCard(a: set<string>, b: set<string>)
    requires a <= b
    ensures |a| <= |b|
  {
    assert b == a + (b - a);
  }

  /** If a recent node is least recently stamped among the leaves, then all leaves are recent. */
  lemma LeastLeafRecent(g: State, n: NodeId, t: Tenant, e: nat)
    requires Inv(g) && Recent(g.nodes, n, t, e)
    requires forall m :: Leaf(g.nodes, m, t) ==> g.nodes[n].tenants[t] <= g.nodes[m].tenants[t]
    ensures Lang(g.nodes, g.paths, t) - {""} <= RecentStrings(g.nodes, g.paths, t, e)
  {
    forall x | x in Lang(g.nodes, g.paths, t) && x != "" ensures x in RecentStrings(g.nodes, g.paths, t, e) {
      LangMember(g.nodes, g.paths, t, x);
      var m :| Spells(g.nodes, g.paths, t, m, x);
      var l := LeafBelow(g.nodes, g.paths, m, t);
      PrefixesMember(g.paths[l], x);
      assert Recent(g.nodes, l, t, e);
    }
  }

  /** While the recent texts fit the budget, no recent node is due. */
  lemma RecentNotDue(g: State, n: NodeId, t: Tenant, e: nat, max: nat)
    requires Inv(g) && t in g.counts && Recent(g.nodes, n, t, e)
    requires |RecentStrings(g.nodes, g.paths, t, e)| <= max
    ensures !Due(g, Eviction(n, t), max)
  {
    LangCard(g.nodes, g.paths, t);
    assert OwnedSize(g.nodes, t) == CountOf(g.counts, t);
    if Due(g, Eviction(n, t), max) {
      LeastLeafRecent(g, n, t, e);
      SubsetCard(Lang(g.nodes, g.paths, t) - {""}, RecentStrings(g.nodes, g.paths, t, e));
    }
  }

  /** `n` is recent in both states, with the same stamp and path, or in neither. */
  ghost predicate SameRecent(g: State, h: State, n: NodeId, t: Tenant, e: nat) {
    && (Recent(g.nodes, n, t, e) <==> Recent(h.nodes, n, t, e))
    && (Recent(g.nodes, n, t, e) ==>
          && n in g.paths && n in h.paths && h.paths[n] == g.paths[n]
          && h.nodes[n].tenants[t] == g.nodes[n].tenants[t])
  }

  ghost predicate RecentKept(g: State, h: State, t: Tenant, e: nat) {
    forall n {:trigger SameRecent(g, h, n, t, e)} :: SameRecent(g, h, n, t, e)
  }

  lemma RecentStringsKept(g: State, h: State, t: Tenant, e: nat)
    requires g.paths.Keys == g.nodes.Keys && h.paths.Keys == h.nodes.Keys && RecentKept(g, h, t, e)
    ensures RecentStrings(h.nodes, h.paths, t, e) == RecentStrings(g.nodes, g.paths, t, e)
  {
    forall x ensures x in RecentStrings(h.nodes, h.paths, t, e) <==> x in RecentStrings(g.nodes, g.paths, t, e) {
      if n :| n in g.nodes && Recent(g.nodes, n, t, e) && x in Prefixes(g.paths[n]) && x != "" {
        assert SameRecent(g, h, n, t, e);
      }
      if n :| n in h.nodes && Recent(h.nodes, n, t, e) && x in Prefixes(h.paths[n]) && x != "" {
        assert SameRecent(g, h, n, t, e);
      }
    }
  }

  lemma DueKeepsRecent(g: State, f: Eviction, max: nat, t: Tenant, e: nat, n: NodeId)
    requires Inv(g) && Due(g, f, max) && t in g.counts && |RecentStrings(g.nodes, g.paths, t, e)| <= max
    ensures SameRecent(g, Apply(g, f), n, t, e)
  {
    DisownStamps(g.nodes, f.node, f.tenant);
    if Recent(g.nodes, n, t, e) {
      RecentNotDue(g, n, t, e, max);
      assert f != Eviction(n, t);
      DisownOthers(g.nodes, f.node, f.tenant, n, t);
    }
  }

  /** Least recently used, over whole evictions: for any stamp `e`, if the texts of a tenant stamped
      since `e` fit the budget together, none of their nodes is evicted. */
  lemma {:induction false} LogKeepsRecent(g: State, log: seq<Eviction>, max: nat, t: Tenant, e: nat)
    requires Inv(g) && ValidLog(g, log, max) && t in g.counts
    requires |RecentStrings(g.nodes, g.paths, t, e)| <= max
    ensures Inv(After(g, log)) && RecentKept(g, After(g, log), t, e)
  {
    LogInv(g, log, max);
    if log != [] {
      var h, f := After(g, log[..|log| - 1]), log[|log| - 1];
      LogKeepsRecent(g, log[..|log| - 1], max, t, e);
      LogInv(g, log[..|log| - 1], max);
      RecentStringsKept(g, h, t, e);
      forall n ensures SameRecent(g, After(g, log), n, t, e) {
        assert SameRecent(g, h, n, t, e);
        DueKeepsRecent(h, f, max, t, e, n);
      }
    }
  }

  /** So the tenant still holds all those texts. */
  lemma RecentTextsSurvive(g: State, log: seq<Eviction>, max: nat, t: Tenant, e: nat)
    requires Inv(g) && ValidLog(g, log, max) && t in g.counts
    requires |RecentStrings(g.nodes, g.paths, t, e)| <= max
    ensures Inv(After(g, log)) && RecentStrings(g.nodes, g.paths, t, e) <= LangOf(View(After(g, log)), t)
  {
    var h := After(g, log);
    LogKeepsRecent(g, log, max, t, e);
    ViewLang(h, t);
    forall x | x in RecentStrings(g.nodes, g.paths, t, e) ensures x in Lang(h.nodes, h.paths, t) {
      var n :| n in g.nodes && Recent(g.nodes, n, t, e) && x in Prefixes(g.paths[n]) && x != "";
      assert SameRecent(g, h, n, t, e);
      PrefixesMember(g.paths[n], x);
      LangMember(h.nodes, h.paths, t, x);
      assert Spells(h.nodes, h.paths, t, n, x);
    }
  }

  /** In particular the freshest node stays if its path fits. */
  lemma LogKeepsFreshest(g: State, log: seq<Eviction>, max: nat, n: NodeId, t: Tenant)
    requires Inv(g) && ValidLog(g, log, max)
    requires FreshestAt(g.nodes, n, t) && t in g.counts && |g.paths[n]| <= max
    ensures var h := After(g, log);
            Inv(h) && FreshestAt(h.nodes, n, t) && h.paths[n] == g.paths[n]
  {
    var e, h := g.nodes[n].tenants[t], After(g, log);
    FreshestAlone(g, n, t);
    LogKeepsRecent(g, log, max, t, e);
    assert SameRecent(g, h, n, t, e);
    forall m | m in h.nodes && m != n && m != ROOT && t in h.nodes[m].tenants
      ensures h.nodes[m].tenants[t] < h.nodes[n].tenants[t]
    {
      assert SameRecent(g, h, m, t, e);
    }
  }

  /** Apart from the root, nothing is as recent as the freshest node. */
  lemma FreshestAlone(g: State, n: NodeId, t: Tenant)
    requires Inv(g) && FreshestAt(g.nodes, n, t)
    ensures |RecentStrings(g.nodes, g.paths, t, g.nodes[n].tenants[t])| <= |g.paths[n]|
  {
    var l, ps := RecentStrings(g.nodes, g.paths, t, g.nodes[n].tenants[t]), Prefixes(g.paths[n]) - {""};
    PrefixesOfEmpty();
    forall x | x in l ensures x in ps {
      var m :| m in g.nodes && Recent(g.nodes, m, t, g.nodes[n].tenants[t]) && x in Prefixes(g.paths[m]) && x != "";
      assert m == n || m == ROOT;
    }
    SubsetCard(l, ps);
    PrefixesCard(g.paths[n]);
  }

  /** A text inserted last and no longer than the budget is still there, in full, after eviction. */
  lemma InsertThenEvict(g0: State, g: State, text: string, t: Tenant, log: seq<Eviction>, max: nat)
    requires Inv(g0) && InsertedIn(g0, g, t, text) && ValidLog(g, log, max) && |text| <= max
    ensures Inv(After(g, log)) && text in LangOf(View(After(g, log)), t)
  {
    var h := After(g, log);
    assert t in View(g).counted;
    var n :| n in g.nodes && g.paths[n] == text && FreshestAt(g.nodes, n, t);
    LogKeepsFreshest(g, log, max, n, t);
    ViewLang(h, t);
    LangMember(h.nodes, h.paths, t, text);
    assert Spells(h.nodes, h.paths, t, n, text);
  }

  // ---------- leaves after a removal ----------

  lemma ChildStaysOwned(s: Store, p: Paths, n: NodeId, t: Tenant, m: NodeId, u: Tenant)
    requires Wf(s, p) && Leaf(s, n, t) && m in Disown(s, n, t) && ChildOwned(s, m, u)
    requires u != t || s[n].parent != Some(m)
    ensures ChildOwned(Disown(s, n, t), m, u)
  {
    assert n != ROOT ==> Hangs(s, p, n);
    assert ChildLinks(s, m);
    var c :| c in s[m].children && s[m].children[c] in s && u in s[s[m].children[c]].tenants;
    DisownOthers(s, n, t, s[m].children[c], u);
    assert Disown(s, n, t)[m].children[c] == s[m].children[c];
  }

  /** Taking `t` off a leaf creates no leaf except possibly its parent, for `t`. */
  lemma LeavesAfter(s: Store, p: Paths, n: NodeId, t: Tenant, m: NodeId, u: Tenant)
    requires Wf(s, p) && Leaf(s, n, t) && Leaf(Disown(s, n, t), m, u)
    ensures (u == t && s[n].parent == Some(m)) || (Leaf(s, m, u) && (u != t || m != n))
  {
    DisownStamps(s, n, t);
    if (u != t || s[n].parent != Some(m)) && ChildOwned(s, m, u) {
      ChildStaysOwned(s, p, n, t, m, u);
    }
  }

  /** Taking `t` off a leaf destroys no other leaf. */
  lemma LeavesKept(s: Store, p: Paths, n: NodeId, t: Tenant, m: NodeId, u: Tenant)
    requires Wf(s, p) && Leaf(s, n, t) && Leaf(s, m, u) && (u != t || m != n)
    ensures Leaf(Disown(s, n, t), m, u)
  {
    var s' := Disown(s, n, t);
    DisownOthers(s, n, t, m, u);
    assert forall c :: c in s'[m].children ==> c in s[m].children && s'[m].children[c] == s[m].children[c];
    DisownStamps(s, n, t);
  }
}
