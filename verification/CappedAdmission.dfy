/** Capped inserts by many threads, serialised per lock stripe, beside eviction, removal and
    matching: the step machine and the bound it keeps. */
module CappedAdmission {
  import opened Tenants
  import opened TreeSpec
  import opened TreeRuns

  type Thread = nat
  type Stripe = nat

  /** Where a thread stands in a capped insert. */
  datatype Pc =
    | Idle
    | Locked(text: string, tenant: Tenant)
    | Admitted(text: string, tenant: Tenant)
    | Leaving(tenant: Tenant)

  /** The tree, the threads, and the owner of each held stripe. */
  datatype World = World(tree: Abstract, pcs: map<Thread, Pc>, held: map<Stripe, Thread>)

  datatype Action =
    | Lock(text: string, tenant: Tenant)
    | Check
    | DoInsert
    | Unlock

  ghost function PcOf(w: World, i: Thread): Pc {
    if i in w.pcs then w.pcs[i] else Idle
  }

  ghost predicate ThreadStep(w: World, i: Thread, a: Action, w': World, stripe: Tenant -> Stripe, max: nat) {
    match a
    case Lock(text, t) =>
      && PcOf(w, i).Idle? && stripe(t) !in w.held
      && w' == w.(pcs := w.pcs[i := Locked(text, t)], held := w.held[stripe(t) := i])
    case Check =>
      && PcOf(w, i).Locked?
      && var Locked(text, t) := PcOf(w, i);
      && w' == w.(pcs := w.pcs[i := if Admits(w.tree, t, max) then Admitted(text, t) else Leaving(t)])
    case DoInsert =>
      && PcOf(w, i).Admitted?
      && var Admitted(text, t) := PcOf(w, i);
      && w' == w.(tree := Inserted(w.tree, text, t), pcs := w.pcs[i := Leaving(t)])
    case Unlock =>
      && PcOf(w, i).Leaving?
      && w' == w.(pcs := w.pcs[i := Idle], held := w.held - {stripe(PcOf(w, i).tenant)})
  }

  /** Eviction, removal and matching happen at any time and take no stripe. */
  ghost predicate OtherStep(w: World, e: Event, w': World) {
    (e.Evict? || e.Remove? || e.Match?) && Step(w.tree, e, w'.tree) && w' == w.(tree := w'.tree)
  }

  /** Requests bring texts of at most `limit` chars. */
  ghost predicate RequestStep(w: World, i: Thread, a: Action, w': World,
                              stripe: Tenant -> Stripe, max: nat, limit: nat) {
    ThreadStep(w, i, a, w', stripe, max) && (a.Lock? ==> |a.text| <= limit)
  }

  ghost predicate Next(w: World, w': World, stripe: Tenant -> Stripe, max: nat, limit: nat) {
    || (exists i, a :: RequestStep(w, i, a, w', stripe, max, limit))
    || (exists e :: OtherStep(w, e, w'))
  }

  ghost predicate Reachable(ws: seq<World>, stripe: Tenant -> Stripe, max: nat, limit: nat) {
    && ws != [] && ws[0] == World(EMPTY, map[], map[])
    && forall k :: 0 <= k < |ws| - 1 ==> Next(ws[k], ws[k + 1], stripe, max, limit)
  }

  ghost predicate Holds(w: World, i: Thread, s: Stripe) {
    s in w.held && w.held[s] == i
  }

  ghost predicate ThreadOk(w: World, i: Thread, stripe: Tenant -> Stripe, max: nat, limit: nat) {
    match PcOf(w, i)
    case Idle => true
    case Locked(text, t) => Holds(w, i, stripe(t)) && |text| <= limit
    case Admitted(text, t) => Holds(w, i, stripe(t)) && |text| <= limit && SizeOf(w.tree, t) < max
    case Leaving(t) => Holds(w, i, stripe(t))
  }

  ghost predicate Safe(w: World, stripe: Tenant -> Stripe, max: nat, limit: nat) {
    && Consistent(w.tree)
    && (forall i {:trigger ThreadOk(w, i, stripe, max, limit)} :: ThreadOk(w, i, stripe, max, limit))
    && (forall t :: SizeOf(w.tree, t) <= max - 1 + limit)
  }

  /** Locking, checking and unlocking leave the tree alone. */
  lemma QuietStepSafe(w: World, i: Thread, a: Action, w': World, stripe: Tenant -> Stripe, max: nat, limit: nat)
    requires Safe(w, stripe, max, limit) && max > 0
    requires RequestStep(w, i, a, w', stripe, max, limit) && !a.DoInsert?
    ensures Safe(w', stripe, max, limit)
  {
    forall j ensures ThreadOk(w', j, stripe, max, limit) { QuietStepThread(w, i, a, w', stripe, max, limit, j); }
  }

  lemma CheckThread(w: World, i: Thread, w': World, stripe: Tenant -> Stripe, max: nat, limit: nat, j: Thread)
    requires Consistent(w.tree) && max > 0
    requires ThreadOk(w, i, stripe, max, limit) && ThreadOk(w, j, stripe, max, limit)
    requires ThreadStep(w, i, Check, w', stripe, max)
    ensures ThreadOk(w', j, stripe, max, limit)
  {
    var t := PcOf(w, i).tenant;
    if t !in w.tree.counted { UncountedIsEmpty(w.tree, t); }
  }

  lemma QuietStepThread(w: World, i: Thread, a: Action, w': World,
                        stripe: Tenant -> Stripe, max: nat, limit: nat, j: Thread)
    requires Safe(w, stripe, max, limit) && max > 0
    requires RequestStep(w, i, a, w', stripe, max, limit) && !a.DoInsert?
    ensures ThreadOk(w', j, stripe, max, limit)
  {
    assert ThreadOk(w, i, stripe, max, limit) && ThreadOk(w, j, stripe, max, limit);
    if a.Check? { CheckThread(w, i, w', stripe, max, limit, j); }
  }

  lemma ThreadStepSafe(w: World, i: Thread, a: Action, w': World, stripe: Tenant -> Stripe, max: nat, limit: nat)
    requires Safe(w, stripe, max, limit) && max > 0
    requires RequestStep(w, i, a, w', stripe, max, limit)
    ensures Safe(w', stripe, max, limit)
  {
    if a.DoInsert? {
      InsertSafe(w, i, w', stripe, max, limit);
    } else {
      QuietStepSafe(w, i, a, w', stripe, max, limit);
    }
  }

  lemma InsertSizes(a: Abstract, text: string, t: Tenant, u: Tenant)
    ensures u != t ==> SizeOf(Inserted(a, text, t), u) == SizeOf(a, u)
    ensures SizeOf(Inserted(a, text, t), t) <= SizeOf(a, t) + |text|
  {
    SizeGrowth(a, text, t);
    assert u != t ==> LangOf(Inserted(a, text, t), u) == LangOf(a, u);
  }

  /** The insert of an admitted thread: its stripe keeps every other admission for the tenant away. */
  lemma InsertSafe(w: World, i: Thread, w': World, stripe: Tenant -> Stripe, max: nat, limit: nat)
    requires Safe(w, stripe, max, limit) && max > 0
    requires ThreadStep(w, i, DoInsert, w', stripe, max)
    ensures Safe(w', stripe, max, limit)
  {
    assert ThreadOk(w, i, stripe, max, limit);
    var Admitted(text, t) := PcOf(w, i);
    InsertConsistent(w.tree, text, t);
    forall u ensures SizeOf(w'.tree, u) <= max - 1 + limit {
      InsertSizes(w.tree, text, t, u);
      assert SizeOf(w.tree, u) <= max - 1 + limit;
    }
    forall j ensures ThreadOk(w', j, stripe, max, limit) { InsertThread(w, i, w', stripe, max, limit, j); }
  }

  lemma InsertThread(w: World, i: Thread, w': World, stripe: Tenant -> Stripe, max: nat, limit: nat, j: Thread)
    requires ThreadOk(w, i, stripe, max, limit) && ThreadOk(w, j, stripe, max, limit)
    requires ThreadStep(w, i, DoInsert, w', stripe, max)
    ensures ThreadOk(w', j, stripe, max, limit)
  {
    var Admitted(text, t) := PcOf(w, i);
    if j != i && PcOf(w, j).Admitted? {
      InsertSizes(w.tree, text, t, PcOf(w, j).tenant);
    }
  }

  /** Eviction, removal and matching never grow a tenant. */
  lemma OtherShrinks(a: Abstract, e: Event, b: Abstract, t: Tenant)
    requires Consistent(a) && (e.Evict? || e.Remove? || e.Match?) && Step(a, e, b)
    ensures SizeOf(b, t) <= SizeOf(a, t)
  {
    var l, m := LangOf(a, t) - {""}, LangOf(b, t) - {""};
    forall x | x in m ensures x in l { StepProvenance(a, e, b, t, x); }
    assert l == m + (l - m);
  }

  lemma OtherStepSafe(w: World, e: Event, w': World, stripe: Tenant -> Stripe, max: nat, limit: nat)
    requires Safe(w, stripe, max, limit) && OtherStep(w, e, w')
    ensures Safe(w', stripe, max, limit)
  {
    StepConsistent(w.tree, e, w'.tree);
    forall t ensures SizeOf(w'.tree, t) <= SizeOf(w.tree, t) { OtherShrinks(w.tree, e, w'.tree, t); }
    forall t ensures SizeOf(w'.tree, t) <= max - 1 + limit {
      assert SizeOf(w.tree, t) <= max - 1 + limit;
    }
    forall i ensures ThreadOk(w', i, stripe, max, limit) { assert ThreadOk(w, i, stripe, max, limit); }
  }

  lemma NextSafe(w: World, w': World, stripe: Tenant -> Stripe, max: nat, limit: nat)
    requires Safe(w, stripe, max, limit) && max > 0 && Next(w, w', stripe, max, limit)
    ensures Safe(w', stripe, max, limit)
  {
    if i, a :| RequestStep(w, i, a, w', stripe, max, limit) {
      ThreadStepSafe(w, i, a, w', stripe, max, limit);
    } else {
      var e :| OtherStep(w, e, w');
      OtherStepSafe(w, e, w', stripe, max, limit);
    }
  }

  /** In every reachable state no tenant is above the budget by more than one text less a char. */
  lemma {:induction false} AdmissionBound(ws: seq<World>, stripe: Tenant -> Stripe, max: nat, limit: nat, k: nat)
    requires Reachable(ws, stripe, max, limit) && max > 0 && k < |ws|
    ensures Safe(ws[k], stripe, max, limit)
    ensures forall t :: SizeOf(ws[k].tree, t) <= max - 1 + limit
  {
    if k == 0 {
      forall t ensures SizeOf(ws[0].tree, t) == 0 { assert LangOf(EMPTY, t) - {""} == {}; }
    } else {
      AdmissionBound(ws, stripe, max, limit, k - 1);
      NextSafe(ws[k - 1], ws[k], stripe, max, limit);
    }
  }
}
