/** Recency over whole runs of tree operations: which texts no eviction takes away. */
module RadixRuns {
  import opened Options
  import opened Tenants
  import opened Text
  import opened TreeSpec
  import opened RadixNodes
  import opened RadixSteps
  import opened RadixState
  import opened RadixStamps
  import opened RadixEviction
  import opened RadixRemoval
  import opened RadixOps

  ghost predicate StepAt(gs: seq<State>, ops: seq<Op>, i: nat)
    requires i < |ops| < |gs|
  {
    Inv(gs[i]) && OpStep(gs[i], ops[i], gs[i + 1])
  }

  /** `gs[i]` is the state before operation `i`; the run may start in any valid tree. */
  ghost predicate Run(gs: seq<State>, ops: seq<Op>) {
    && |gs| == |ops| + 1
    && forall i: nat {:trigger StepAt(gs, ops, i)} :: i < |ops| ==> StepAt(gs, ops, i)
  }

  /** The operation neither removes `t`, nor evicts while the strings of `t` stamped since `e` do not
      fit the budget. */
  ghost predicate Spares(g: State, op: Op, t: Tenant, e: nat) {
    && op != Remove(t)
    && (op.Evict? ==> g.paths.Keys == g.nodes.Keys && |RecentStrings(g.nodes, g.paths, t, e)| <= op.max)
  }

  ghost predicate SparesAt(gs: seq<State>, ops: seq<Op>, k: nat, t: Tenant, e: nat)
    requires k < |ops| < |gs|
  {
    Spares(gs[k], ops[k], t, e)
  }

  ghost predicate AllSpare(gs: seq<State>, ops: seq<Op>, i: nat, j: nat, t: Tenant, e: nat)
    requires i <= j <= |ops| < |gs|
  {
    forall k: nat {:trigger SparesAt(gs, ops, k, t, e)} :: i <= k < j ==> SparesAt(gs, ops, k, t, e)
  }

  // ---------- recent nodes stay recent ----------

  /** `n` is as recent in `g'` as `e`, at the path it has in `g`. */
  ghost predicate StillRecent(g: State, g': State, n: NodeId, t: Tenant, e: nat) {
    Recent(g'.nodes, n, t, e) && n in g.paths && n in g'.paths && g'.paths[n] == g.paths[n]
  }

  lemma RecentIsPast(g: State, n: NodeId, t: Tenant, e: nat)
    requires Inv(g) && Recent(g.nodes, n, t, e)
    ensures e <= g.epoch
  {
    assert g.nodes[n].tenants[t] == 0 || g.nodes[n].tenants[t] < g.epoch;
  }

  lemma FromKeepsRecent(g: State, g': State, n: NodeId, u: Tenant, end: Option<nat>, t: Tenant, e: nat)
    requires Sourced(g, g', n, u, end) && Recent(g.nodes, n, t, e) && (end.Some? ==> end.value >= e)
    ensures StillRecent(g, g', n, t, e)
  {
    var m :| From(g, g', n, m, u, end);
  }

  lemma InsertKeepsRecent(g: State, g': State, text: string, u: Tenant, n: NodeId, t: Tenant, e: nat)
    requires Inv(g) && Settled(g, g', u, text) && Recent(g.nodes, n, t, e)
    ensures StillRecent(g, g', n, t, e)
  {
    RecentIsPast(g, n, t, e);
    assert SettledAt(g, g', n, u, text);
    if g'.paths[n] != text {
      FromKeepsRecent(g, g', n, u, None, t, e);
    } else {
      FromKeepsRecent(g, g', n, u, Some(g.epoch), t, e);
    }
  }

  lemma MatchKeepsRecent(g: State, g': State, op: Op, n: NodeId, t: Tenant, e: nat)
    requires Inv(g) && (op.Match? || op.MatchTenant?) && OpStep(g, op, g') && Recent(g.nodes, n, t, e)
    ensures StillRecent(g, g', n, t, e)
  {
  }

  lemma RemoveKeepsRecent(g: State, g': State, u: Tenant, n: NodeId, t: Tenant, e: nat)
    requires Inv(g) && OpStep(g, Remove(u), g') && u != t && Recent(g.nodes, n, t, e)
    ensures StillRecent(g, g', n, t, e)
  {
    assert t in (g.nodes[n].tenants - {u});
    assert SameButFor(g.nodes, g'.nodes, n, u);
    assert t in (g'.nodes[n].tenants - {u}) && (g'.nodes[n].tenants - {u})[t] == (g.nodes[n].tenants - {u})[t];
  }

  lemma StepKeepsRecent(g: State, op: Op, g': State, n: NodeId, t: Tenant, e: nat)
    requires Inv(g) && OpStep(g, op, g') && Spares(g, op, t, e) && t in g.counts && Recent(g.nodes, n, t, e)
    ensures StillRecent(g, g', n, t, e)
  {
    match op
    case Insert(text, u) => InsertKeepsRecent(g, g', text, u, n, t, e);
    case Match(_, _) => MatchKeepsRecent(g, g', op, n, t, e);
    case MatchTenant(_, _) => MatchKeepsRecent(g, g', op, n, t, e);
    case Evict(log, max) =>
      LogKeepsRecent(g, log, max, t, e);
      assert SameRecent(g, g', n, t, e);
    case Remove(u) => RemoveKeepsRecent(g, g', u, n, t, e);
  }

  lemma StepKeepsCounted(g: State, op: Op, g': State, t: Tenant)
    requires Inv(g) && OpStep(g, op, g') && op != Remove(t) && t in g.counts
    ensures t in g'.counts
  {
    match op
    case Insert(text, u) => assert t in View(g').counted;
    case Match(_, _) =>
    case MatchTenant(_, _) =>
    case Evict(log, max) => LogInv(g, log, max);
    case Remove(u) =>
  }

  /** Over any run: a node stamped for `t` since `e` stays, at its path, until `t` is removed or an
      eviction finds that the strings stamped since `e` do not fit. */
  lemma {:induction false} RunKeepsRecent(gs: seq<State>, ops: seq<Op>, i: nat, j: nat, n: NodeId, t: Tenant, e: nat)
    requires Run(gs, ops) && i <= j < |gs| && Inv(gs[i]) && t in gs[i].counts && Recent(gs[i].nodes, n, t, e)
    requires AllSpare(gs, ops, i, j, t, e)
    ensures Inv(gs[j]) && t in gs[j].counts && StillRecent(gs[i], gs[j], n, t, e)
    decreases j
  {
    if i < j {
      RunKeepsRecent(gs, ops, i, j - 1, n, t, e);
      assert StepAt(gs, ops, j - 1) && SparesAt(gs, ops, j - 1, t, e);
      StepKeepsRecent(gs[j - 1], ops[j - 1], gs[j], n, t, e);
      StepKeepsCounted(gs[j - 1], ops[j - 1], gs[j], t);
    }
  }

  // ---------- how much is recent ----------

  /** The text an operation stamps for `t`. */
  ghost function StampText(g: State, op: Op, t: Tenant): string {
    match op
    case Insert(text, u) => if u == t then text else ""
    case Match(n, u) => if u == t && g.epoch % 8 == 0 && n in g.paths then g.paths[n] else ""
    case MatchTenant(n, u) => if u == t && n in g.paths then g.paths[n] else ""
    case Evict(_, _) => ""
    case Remove(_) => ""
  }

  /** The path of `n` is part of the text just stamped, or of a path that was recent before. */
  ghost predicate Covered(g: State, op: Op, g': State, n: NodeId, t: Tenant, e: nat) {
    n in g'.paths &&
    (g'.paths[n] <= StampText(g, op, t)
     || exists m :: Recent(g.nodes, m, t, e) && m in g.paths && g'.paths[n] <= g.paths[m])
  }

  lemma FromCovers(g: State, g': State, text: string, u: Tenant, n: NodeId, t: Tenant, e: nat)
    requires Sourced(g, g', n, u, None) && Recent(g'.nodes, n, t, e)
    ensures Covered(g, Insert(text, u), g', n, t, e) || (u == t && g'.nodes[n].tenants[t] == 0)
  {
    var m :| From(g, g', n, m, u, None);
    assert t in g.nodes[m].tenants ==> Recent(g.nodes, m, t, e);
  }

  /** Where another tenant's text ends, `t` has what it had. */
  lemma EndCovers(g: State, g': State, text: string, u: Tenant, n: NodeId, t: Tenant, e: nat)
    requires Sourced(g, g', n, u, Some(g.epoch)) && Recent(g'.nodes, n, t, e) && u != t
    ensures Covered(g, Insert(text, u), g', n, t, e)
  {
    var m :| From(g, g', n, m, u, Some(g.epoch));
    assert Recent(g.nodes, m, t, e);
  }

  lemma InsertCovers(g: State, g': State, text: string, u: Tenant, n: NodeId, t: Tenant, e: nat)
    requires Inv(g) && OpStep(g, Insert(text, u), g') && Recent(g'.nodes, n, t, e)
    ensures Covered(g, Insert(text, u), g', n, t, e)
  {
    assert SettledAt(g, g', n, u, text);
    if g'.paths[n] != text {
      FromCovers(g, g', text, u, n, t, e);
      if u == t && g'.nodes[n].tenants[t] == 0 { JoinedPrefix(g, g', text, t, n, e); }
    } else if u != t && Sourced(g, g', n, u, Some(g.epoch)) {
      EndCovers(g, g', text, u, n, t, e);
    }
  }

  /** Everything `t` holds comes from before or is a prefix of the text. */
  lemma JoinedPrefix(g: State, g': State, text: string, t: Tenant, n: NodeId, e: nat)
    requires Inv(g) && OpStep(g, Insert(text, t), g') && Recent(g'.nodes, n, t, e) && g'.nodes[n].tenants[t] == 0
    ensures Covered(g, Insert(text, t), g', n, t, e)
  {
    var x := g'.paths[n];
    ViewLang(g, t);
    ViewLang(g', t);
    LangMember(g'.nodes, g'.paths, t, x);
    assert Spells(g'.nodes, g'.paths, t, n, x);
    LangMember(g.nodes, g.paths, t, x);
    PrefixesMember(text, x);
    if m :| Spells(g.nodes, g.paths, t, m, x) {
      assert Recent(g.nodes, m, t, e);
    }
  }

  lemma RemoveCovers(g: State, g': State, u: Tenant, n: NodeId, t: Tenant, e: nat)
    requires Inv(g) && OpStep(g, Remove(u), g') && u != t && Recent(g'.nodes, n, t, e)
    ensures Covered(g, Remove(u), g', n, t, e)
  {
    assert SameButFor(g.nodes, g'.nodes, n, u);
    assert t in (g'.nodes[n].tenants - {u}) && (g'.nodes[n].tenants - {u})[t] == (g.nodes[n].tenants - {u})[t];
    assert Recent(g.nodes, n, t, e);
  }

  lemma MatchCovers(g: State, at: NodeId, u: Tenant, g': State, n: NodeId, t: Tenant, e: nat)
    requires Inv(g) && OpStep(g, Match(at, u), g') && Recent(g'.nodes, n, t, e)
    ensures Covered(g, Match(at, u), g', n, t, e)
  {
    if n != at || t != u || g.epoch % 8 != 0 { assert Recent(g.nodes, n, t, e); }
  }

  lemma MatchTenantCovers(g: State, at: NodeId, u: Tenant, g': State, n: NodeId, t: Tenant, e: nat)
    requires Inv(g) && OpStep(g, MatchTenant(at, u), g') && Recent(g'.nodes, n, t, e)
    ensures Covered(g, MatchTenant(at, u), g', n, t, e)
  {
    if n != at || t != u { assert Recent(g.nodes, n, t, e); }
  }

  lemma StepCovers(g: State, op: Op, g': State, n: NodeId, t: Tenant, e: nat)
    requires Inv(g) && OpStep(g, op, g') && Spares(g, op, t, e) && (op.Evict? ==> t in g.counts)
    requires Recent(g'.nodes, n, t, e)
    ensures Covered(g, op, g', n, t, e)
  {
    match op
    case Insert(text, u) => InsertCovers(g, g', text, u, n, t, e);
    case Match(at, u) => MatchCovers(g, at, u, g', n, t, e);
    case MatchTenant(at, u) => MatchTenantCovers(g, at, u, g', n, t, e);
    case Evict(log, max) =>
      LogKeepsRecent(g, log, max, t, e);
      assert SameRecent(g, g', n, t, e);
    case Remove(u) => RemoveCovers(g, g', u, n, t, e);
  }

  /** One operation adds to the recent strings at most the text it stamps. */
  lemma StepGrowth(g: State, op: Op, g': State, t: Tenant, e: nat)
    requires Inv(g) && OpStep(g, op, g') && Spares(g, op, t, e) && (op.Evict? ==> t in g.counts)
    ensures |RecentStrings(g'.nodes, g'.paths, t, e)| <=
            |RecentStrings(g.nodes, g.paths, t, e)| + |StampText(g, op, t)|
  {
    var l, l' := RecentStrings(g.nodes, g.paths, t, e), RecentStrings(g'.nodes, g'.paths, t, e);
    var text := StampText(g, op, t);
    forall x | x in l' ensures x in l + (Prefixes(text) - {""}) {
      var n :| n in g'.nodes && Recent(g'.nodes, n, t, e) && x in Prefixes(g'.paths[n]) && x != "";
      StepCovers(g, op, g', n, t, e);
      CoveredString(g, op, g', n, t, e, x);
    }
    SubsetCard(l', l + (Prefixes(text) - {""}));
    UnionCard(l, Prefixes(text) - {""});
    PrefixesCard(text);
  }

  lemma CoveredString(g: State, op: Op, g': State, n: NodeId, t: Tenant, e: nat, x: string)
    requires g.paths.Keys == g.nodes.Keys && Covered(g, op, g', n, t, e) && x in Prefixes(g'.paths[n]) && x != ""
    ensures x in RecentStrings(g.nodes, g.paths, t, e) || x in Prefixes(StampText(g, op, t))
  {
    PrefixesMember(g'.paths[n], x);
    PrefixesMember(StampText(g, op, t), x);
    if m :| Recent(g.nodes, m, t, e) && m in g.paths && g'.paths[n] <= g.paths[m] {
      PrefixesMember(g.paths[m], x);
    }
  }

  /** At any moment nothing is as recent as the next tick. */
  lemma NothingRecent(g: State, t: Tenant)
    requires Inv(g)
    ensures |RecentStrings(g.nodes, g.paths, t, g.epoch)| == 0
  {
    PrefixesOfEmpty();
    forall n | Recent(g.nodes, n, t, g.epoch) ensures n == ROOT {
      assert g.nodes[n].tenants[t] == 0;
    }
    assert RecentStrings(g.nodes, g.paths, t, g.epoch) <= Prefixes("") - {""};
    assert Prefixes("") - {""} == {};
  }

  /** The total length of the texts stamped for `t` by the operations from `i` up to `j`. */
  ghost function StampedLen(gs: seq<State>, ops: seq<Op>, i: nat, j: nat, t: Tenant): nat
    requires i <= j <= |ops| < |gs|
    decreases j
  {
    if i == j then 0 else StampedLen(gs, ops, i, j - 1, t) + |StampText(gs[j - 1], ops[j - 1], t)|
  }

  // ---------- texts that fit stay ----------

  /** The operation stamps a node for `t`. */
  ghost predicate Stamps(g: State, op: Op, t: Tenant) {
    || (op.Insert? && op.tenant == t)
    || (op.Match? && op.tenant == t && g.epoch % 8 == 0)
    || (op.MatchTenant? && op.tenant == t)
  }

  lemma StampedRecent(g: State, op: Op, g': State, t: Tenant) returns (n: NodeId)
    requires Inv(g) && OpStep(g, op, g') && Stamps(g, op, t)
    ensures Recent(g'.nodes, n, t, g.epoch) && n in g'.paths && g'.paths[n] == StampText(g, op, t)
  {
    match op
    case Insert(text, _) =>
      n :| n in g'.nodes && g'.paths[n] == text && FreshestAt(g'.nodes, n, t);
      EndStamped(g, g', text, t, n);
    case Match(at, _) => n := at;
    case MatchTenant(at, _) => n := at;
  }

  /** The node that ends the text has the tick of the insert. */
  lemma EndStamped(g: State, g': State, text: string, t: Tenant, n: NodeId)
    requires Inv(g) && Done(g, g', t, text) && n in g'.nodes && g'.paths[n] == text
    ensures Recent(g'.nodes, n, t, g.epoch)
  {
    assert SettledAt(g, g', n, t, text);
    if Sourced(g, g', n, t, Some(g.epoch)) {
      var m :| From(g, g', n, m, t, Some(g.epoch));
    }
  }

  /** Operation `k` does not remove `t`, and if it evicts it has a budget for all the texts stamped for
      `t` since operation `i`. */
  ghost predicate BudgetCovers(gs: seq<State>, ops: seq<Op>, i: nat, k: nat, t: Tenant)
    requires i <= k < |ops| < |gs|
  {
    ops[k] != Remove(t) && (ops[k].Evict? ==> StampedLen(gs, ops, i, k, t) <= ops[k].max)
  }

  ghost predicate BudgetsCover(gs: seq<State>, ops: seq<Op>, i: nat, j: nat, t: Tenant)
    requires i < j <= |ops| < |gs|
  {
    forall k: nat {:trigger BudgetCovers(gs, ops, i, k, t)} :: i < k < j ==> BudgetCovers(gs, ops, i, k, t)
  }

  /** The number of strings of `t` stamped since `e`. */
  ghost function RecentCount(g: State, t: Tenant, e: nat): nat {
    if g.paths.Keys == g.nodes.Keys then |RecentStrings(g.nodes, g.paths, t, e)| else 0
  }

  /** One operation further, with at most `len` recent strings before it. */
  lemma StepSpares(gs: seq<State>, ops: seq<Op>, k: nat, t: Tenant, e: nat, len: nat)
    requires Run(gs, ops) && k < |ops| && ops[k] != Remove(t) && RecentCount(gs[k], t, e) <= len
    requires ops[k].Evict? ==> t in gs[k].counts && len <= ops[k].max
    ensures SparesAt(gs, ops, k, t, e)
    ensures RecentCount(gs[k + 1], t, e) <= len + |StampText(gs[k], ops[k], t)|
  {
    assert StepAt(gs, ops, k);
    StepGrowth(gs[k], ops[k], gs[k + 1], t, e);
  }

  lemma StepCounts(gs: seq<State>, ops: seq<Op>, k: nat, t: Tenant)
    requires Run(gs, ops) && k < |ops| && ops[k] != Remove(t)
    requires t in gs[k].counts || (ops[k].Insert? && Stamps(gs[k], ops[k], t))
    ensures t in gs[k + 1].counts
  {
    assert StepAt(gs, ops, k);
    if t in gs[k].counts {
      StepKeepsCounted(gs[k], ops[k], gs[k + 1], t);
    } else {
      assert t in View(gs[k + 1]).counted;
    }
  }

  lemma StartsEmpty(gs: seq<State>, ops: seq<Op>, i: nat, t: Tenant)
    requires Run(gs, ops) && i < |ops|
    ensures RecentCount(gs[i], t, gs[i].epoch) == 0
  {
    assert StepAt(gs, ops, i);
    NothingRecent(gs[i], t);
  }

  /** Then every operation spares them, and they are all that is recent. */
  lemma {:induction false} CoverMeansSpares(gs: seq<State>, ops: seq<Op>, i: nat, j: nat, t: Tenant)
    requires Run(gs, ops) && i < j <= |ops| && Stamps(gs[i], ops[i], t) && BudgetsCover(gs, ops, i, j, t)
    requires ops[i].Insert? || t in gs[i].counts
    ensures AllSpare(gs, ops, i, j, t, gs[i].epoch)
    ensures t in gs[j].counts && RecentCount(gs[j], t, gs[i].epoch) <= StampedLen(gs, ops, i, j, t)
    decreases j
  {
    if i + 1 < j {
      CoverMeansSpares(gs, ops, i, j - 1, t);
    } else {
      StartsEmpty(gs, ops, i, t);
    }
    assert i + 1 < j ==> BudgetCovers(gs, ops, i, j - 1, t);
    StepCounts(gs, ops, j - 1, t);
    StepSpares(gs, ops, j - 1, t, gs[i].epoch, StampedLen(gs, ops, i, j - 1, t));
  }

  /** Recency over whole runs: a text stamped for `t` by operation `i`, inserted or matched, is still
      held after any further operations, as long as `t` is not removed and every eviction has a budget
      for the texts stamped for `t` since, this one included. */
  lemma StampedTextStays(gs: seq<State>, ops: seq<Op>, i: nat, j: nat, t: Tenant)
    requires Run(gs, ops) && i < j <= |ops| && Stamps(gs[i], ops[i], t) && BudgetsCover(gs, ops, i, j, t)
    requires ops[i].Insert? || t in gs[i].counts
    ensures Inv(gs[j]) && StampText(gs[i], ops[i], t) in LangOf(View(gs[j]), t)
  {
    CoverMeansSpares(gs, ops, i, j, t);
    StepCounts(gs, ops, i, t);
    assert StepAt(gs, ops, i);
    var n := StampedRecent(gs[i], ops[i], gs[i + 1], t);
    RunKeepsRecent(gs, ops, i + 1, j, n, t, gs[i].epoch);
    RecentHeld(gs[j], n, t, gs[i].epoch);
  }

  lemma RecentHeld(g: State, n: NodeId, t: Tenant, e: nat)
    requires Inv(g) && Recent(g.nodes, n, t, e)
    ensures g.paths[n] in LangOf(View(g), t)
  {
    ViewLang(g, t);
    LangMember(g.nodes, g.paths, t, g.paths[n]);
    assert Spells(g.nodes, g.paths, t, n, g.paths[n]);
  }

  // ---------- a match that does not stamp ----------

  /** Inserting a text that starts like nothing else hangs it below the root. */
  lemma FreshLeaf(g: State, t: Tenant, id: NodeId, text: string) returns (g': State)
    requires Inv(g) && IdsBelow(g.nodes, id) && text != "" && text[0] !in g.nodes[ROOT].children
    ensures g' == WithLeaf(Taken(g, ROOT, t), t, ROOT, id, text)
    ensures OpStep(g, Insert(text, t), g') && IdsBelow(g'.nodes, id + 1)
  {
    InsertStart(g, t);
    CarriedStart(g, t);
    CarriedTake(g, g, t, ROOT);
    LeafDone(g, Taken(g, ROOT, t), t, ROOT, id, text);
    assert "" + text == text;
    g' := WithLeaf(Taken(g, ROOT, t), t, ROOT, id, text);
  }

  /** The empty tree, then `a` and `b` inserted for `t`, in this order. */
  function Empty(): State {
    State(map[ROOT := Node("", map[], map[], None, None)], map[ROOT := ""], map[], 0)
  }

  function Leaf1(t: Tenant): Node { Node("a", map[], map[t := 0], Some(ROOT), Some(t)) }

  function Leaf2(t: Tenant): Node { Node("b", map[], map[t := 1], Some(ROOT), Some(t)) }

  function One(t: Tenant): State {
    State(map[ROOT := Node("", map['a' := 1], map[t := 0], None, None), 1 := Leaf1(t)],
          map[ROOT := "", 1 := "a"], map[t := 1], 1)
  }

  function Two(t: Tenant, epoch: nat): State {
    State(map[ROOT := Node("", map['a' := 1, 'b' := 2], map[t := 0], None, None), 1 := Leaf1(t), 2 := Leaf2(t)],
          map[ROOT := "", 1 := "a", 2 := "b"], map[t := 2], epoch)
  }

  lemma EmptyInv()
    ensures Inv(Empty())
  {
    forall t ensures OwnedSize(Empty().nodes, t) == CountOf(map[], t) { assert Weights(Empty().nodes, t) == map[]; }
  }

  lemma OneIs(t: Tenant)
    ensures WithLeaf(Taken(Empty(), ROOT, t), t, ROOT, 1, "a") == One(t)
  {
    assert "" + "a" == "a";
  }

  lemma TwoIs(t: Tenant)
    ensures WithLeaf(Taken(One(t), ROOT, t), t, ROOT, 2, "b") == Two(t, 2)
  {
    assert Taken(One(t), ROOT, t) == One(t);
    assert "" + "b" == "b";
    assert AddLeaf(One(t).nodes, ROOT, 2, "b", t, 1) == Two(t, 2).nodes;
  }

  lemma OneText(t: Tenant)
    ensures Inv(Empty()) && OpStep(Empty(), Insert("a", t), One(t))
  {
    EmptyInv();
    OneIs(t);
    var g := FreshLeaf(Empty(), t, 1, "a");
  }

  lemma OneInv(t: Tenant)
    ensures Inv(One(t))
  {
    OneText(t);
  }

  lemma TwoTexts(t: Tenant)
    ensures Inv(One(t)) && OpStep(One(t), Insert("b", t), Two(t, 2))
  {
    OneInv(t);
    TwoIs(t);
    var g := FreshLeaf(One(t), t, 2, "b");
  }

  lemma TwoInv(t: Tenant)
    ensures Inv(Two(t, 2))
  {
    TwoTexts(t);
  }

  lemma QuietMatch(t: Tenant)
    ensures Inv(Two(t, 2)) && OpStep(Two(t, 2), Match(1, t), Two(t, 3))
  {
    TwoInv(t);
    TickInert(Two(t, 2));
    assert AfterMatch(Two(t, 2).nodes, 1, t, 2) == Two(t, 2).nodes;
  }

  lemma FirstDue(t: Tenant)
    ensures Inv(Two(t, 3)) && Due(Two(t, 3), Eviction(1, t), 1)
  {
    QuietMatch(t);
    var s := Two(t, 3).nodes;
    assert s[ROOT].children['a'] == 1;
  }

  ghost function Left(t: Tenant): State { Apply(Two(t, 3), Eviction(1, t)) }

  lemma LeftFits(t: Tenant)
    ensures Exhausted(Left(t), 1)
  {
    assert Left(t).counts == map[t := 1];
  }

  lemma LogOfOne(g: State, e: Eviction, max: nat)
    requires Due(g, e, max)
    ensures ValidLog(g, [e], max) && After(g, [e]) == Apply(g, e)
  {
    assert [e][..0] == [] && After(g, []) == g && ValidLog(g, [], max);
  }

  lemma FirstEvicted(t: Tenant)
    ensures Inv(Two(t, 3)) && OpStep(Two(t, 3), Evict([Eviction(1, t)], 1), Left(t))
  {
    FirstDue(t);
    DueInv(Two(t, 3), Eviction(1, t), 1);
    LogOfOne(Two(t, 3), Eviction(1, t), 1);
    LeftFits(t);
  }

  lemma FirstGone(t: Tenant)
    ensures Inv(Two(t, 3)) && Inv(Left(t))
    ensures "a" in LangOf(View(Two(t, 3)), t) && "a" !in LangOf(View(Left(t)), t)
  {
    var g, e := Two(t, 3), Eviction(1, t);
    FirstDue(t);
    DueInv(g, e, 1);
    ViewLang(g, t);
    ViewLang(Left(t), t);
    RecentHeld(g, 1, t, 0);
    DueLang(g, e, 1, t);
    StringsOnMember(g.nodes, g.paths, 1, "a");
  }

  ghost function Touched(t: Tenant): seq<State> { [Empty(), One(t), Two(t, 2), Two(t, 3), Left(t)] }

  function Touching(t: Tenant): seq<Op> {
    [Insert("a", t), Insert("b", t), Match(1, t), Evict([Eviction(1, t)], 1)]
  }

  lemma StepIsAt(gs: seq<State>, ops: seq<Op>, i: nat, g: State, op: Op, g': State)
    requires i < |ops| < |gs| && gs[i] == g && ops[i] == op && gs[i + 1] == g'
    requires Inv(g) && OpStep(g, op, g')
    ensures StepAt(gs, ops, i)
  {
  }

  lemma FirstInsert(t: Tenant, gs: seq<State>, ops: seq<Op>)
    requires 0 < |ops| < |gs| && gs[0] == Empty() && ops[0] == Insert("a", t) && gs[1] == One(t)
    ensures StepAt(gs, ops, 0)
  {
    EmptyInv();
    OneIs(t);
    var g := FreshLeaf(gs[0], t, 1, "a");
    StepIsAt(gs, ops, 0, gs[0], ops[0], g);
  }

  lemma SecondInsert(t: Tenant, gs: seq<State>, ops: seq<Op>)
    requires 1 < |ops| < |gs| && gs[1] == One(t) && ops[1] == Insert("b", t) && gs[2] == Two(t, 2)
    ensures StepAt(gs, ops, 1)
  {
    OneInv(t);
    TwoIs(t);
    var g := FreshLeaf(gs[1], t, 2, "b");
    StepIsAt(gs, ops, 1, gs[1], ops[1], g);
  }

  lemma TouchedRun(t: Tenant)
    ensures Run(Touched(t), Touching(t))
  {
    var gs, ops := Touched(t), Touching(t);
    forall i: nat | i < |ops| ensures StepAt(gs, ops, i) {
      if i == 0 {
        FirstInsert(t, gs, ops);
      } else if i == 1 {
        SecondInsert(t, gs, ops);
      } else if i == 2 {
        QuietMatch(t);
        StepIsAt(gs, ops, 2, Two(t, 2), Match(1, t), Two(t, 3));
      } else {
        FirstEvicted(t);
        StepIsAt(gs, ops, 3, Two(t, 3), Evict([Eviction(1, t)], 1), Left(t));
      }
    }
  }

  /** Being touched is not being stamped: `a` was matched last, at a tick that does not stamp, and it
      is the text that eviction takes away, though it alone fits the budget. */
  lemma UnstampedMatch(t: Tenant)
    ensures Run(Touched(t), Touching(t)) && Two(t, 2).paths[1] == "a"
    ensures Inv(Two(t, 3)) && "a" in LangOf(View(Two(t, 3)), t)
    ensures Inv(Left(t)) && "a" !in LangOf(View(Left(t)), t)
  {
    TouchedRun(t);
    FirstGone(t);
  }
}
