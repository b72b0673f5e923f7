/** The whole state of a tree as a value, its invariant, and the abstract state it stands for. */
module RadixState {
  import opened Tenants
  import opened Options
  import opened MapSums
  import opened Text
  import opened TreeSpec
  import opened RadixNodes
  import opened RadixSteps

  datatype State = State(nodes: Store, paths: Paths, counts: map<Tenant, nat>, epoch: nat)

  // ---------- invariant ----------

  function CountOf(counts: map<Tenant, nat>, t: Tenant): nat {
    if t in counts then counts[t] else 0
  }

  /** The recorded sizes are the recomputed ones. */
  ghost predicate Tallied(s: Store, counts: map<Tenant, nat>) {
    forall t {:trigger OwnedSize(s, t)} :: OwnedSize(s, t) == CountOf(counts, t)
  }

  /** Tenants with a recorded size are the owners of the root, up to the sentinel. */
  ghost predicate Enrolled(s: Store, counts: map<Tenant, nat>)
    requires ROOT in s
  {
    counts.Keys <= s[ROOT].tenants.Keys <= counts.Keys + {SENTINEL}
  }

  /** Stamps are zero or come from an earlier tick; before the first tick there is no text. */
  ghost predicate Clocked(s: Store, epoch: nat) {
    && (epoch == 0 ==> s.Keys == {ROOT})
    && forall n, t {:trigger s[n].tenants[t]} :: n in s && t in s[n].tenants ==>
         s[n].tenants[t] == 0 || s[n].tenants[t] < epoch
  }

  /** Node ids at and above `next` are unused. */
  ghost predicate IdsBelow(s: Store, next: NodeId) {
    forall n :: n in s ==> n < next
  }

  ghost predicate Inv(g: State) {
    Wf(g.nodes, g.paths) && Tallied(g.nodes, g.counts) && Enrolled(g.nodes, g.counts) && Clocked(g.nodes, g.epoch)
  }

  // ---------- view ----------

  ghost function View(g: State): Abstract
    requires Wf(g.nodes, g.paths)
  {
    Abstract(map t | t in g.nodes[ROOT].tenants :: Lang(g.nodes, g.paths, t), g.counts.Keys)
  }

  lemma {:induction false} OwnersAtRoot(s: Store, p: Paths, n: NodeId)
    requires Wf(s, p) && n in s
    ensures s[n].tenants.Keys <= s[ROOT].tenants.Keys
    decreases |p[n]|
  {
    if n != ROOT {
      assert Hangs(s, p, n);
      OwnersAtRoot(s, p, s[n].parent.value);
    }
  }

  /** The view loses nothing: it gives every tenant's language. */
  lemma ViewLang(g: State, t: Tenant)
    requires Wf(g.nodes, g.paths)
    ensures LangOf(View(g), t) == Lang(g.nodes, g.paths, t)
  {
    if t !in g.nodes[ROOT].tenants {
      forall x | x in Lang(g.nodes, g.paths, t) ensures false {
        LangMember(g.nodes, g.paths, t, x);
        var n :| Spells(g.nodes, g.paths, t, n, x);
        OwnersAtRoot(g.nodes, g.paths, n);
      }
    }
  }

  /** The recorded size of a tenant is the number of its distinct non-empty strings. */
  lemma CountIsSize(g: State, t: Tenant)
    requires Inv(g)
    ensures CountOf(g.counts, t) == SizeOf(View(g), t)
  {
    ViewLang(g, t);
    LangCard(g.nodes, g.paths, t);
  }

  lemma LangPrefixClosed(s: Store, p: Paths, t: Tenant)
    requires p.Keys == s.Keys
    ensures PrefixClosed(Lang(s, p, t))
  {
    forall x, y | y in Lang(s, p, t) && x <= y ensures x in Lang(s, p, t) {
      LangMember(s, p, t, x);
      LangMember(s, p, t, y);
      var n :| Spells(s, p, t, n, y);
      assert Spells(s, p, t, n, x);
    }
  }

  /** Without text of its own a tenant owns at most the root. */
  lemma NoSizeNoText(s: Store, p: Paths, t: Tenant, n: NodeId)
    requires Wf(s, p) && OwnedSize(s, t) == 0 && n in s && t in s[n].tenants
    ensures n == ROOT
  {
    assert n != ROOT ==> Hangs(s, p, n);
    SumZero(Weights(s, t), n);
  }

  lemma ViewConsistent(g: State)
    requires Inv(g)
    ensures Consistent(View(g))
  {
    var s, p, a := g.nodes, g.paths, View(g);
    forall t | t in a.langs
      ensures "" in a.langs[t] && PrefixClosed(a.langs[t])
      ensures t !in a.counted ==> a.langs[t] == {""}
    {
      LangPrefixClosed(s, p, t);
      LangMember(s, p, t, "");
      assert Spells(s, p, t, ROOT, "");
      if t !in a.counted {
        forall x | x in Lang(s, p, t) ensures x == "" {
          LangMember(s, p, t, x);
          var n :| Spells(s, p, t, n, x);
          NoSizeNoText(s, p, t, n);
        }
      }
    }
  }

  // ---------- insertion, step by step ----------

  /** Part of `text` up to `x` is in: the view is `g0`'s plus the prefixes of `x` for `t`. */
  ghost predicate Inserting(g0: State, g: State, t: Tenant, x: string) {
    && Wf(g0.nodes, g0.paths) && Inv(g) && t in g.counts
    && g.counts.Keys == g0.counts.Keys + {t}
    && g.nodes[ROOT].tenants.Keys == g0.nodes[ROOT].tenants.Keys + {t}
    && forall u {:trigger Lang(g.nodes, g.paths, u)} :: Lang(g.nodes, g.paths, u) ==
                   Lang(g0.nodes, g0.paths, u) + if u == t then Prefixes(x) else {}
  }

  function Bump(counts: map<Tenant, nat>, t: Tenant, k: nat): map<Tenant, nat> {
    counts[t := CountOf(counts, t) + k]
  }

  function Take(s: Store, n: NodeId, t: Tenant): Store
    requires n in s
  {
    if t in s[n].tenants then s else Stamp(s, n, t, 0)
  }

  function TakeCounts(s: Store, counts: map<Tenant, nat>, n: NodeId, t: Tenant): map<Tenant, nat>
    requires n in s
  {
    Bump(counts, t, if t in s[n].tenants then 0 else |s[n].text|)
  }

  /** Ownership of `n`, if missing, is taken with stamp zero, and its text is added to the size. */
  lemma TakeTallied(s: Store, p: Paths, counts: map<Tenant, nat>, n: NodeId, t: Tenant)
    requires Wf(s, p) && n in s && Tallied(s, counts)
    ensures Tallied(Take(s, n, t), TakeCounts(s, counts, n, t))
  {
    forall u ensures OwnedSize(Take(s, n, t), u) == CountOf(TakeCounts(s, counts, n, t), u) {
      if t !in s[n].tenants { StampSize(s, n, t, 0, u); }
      assert OwnedSize(s, u) == CountOf(counts, u);
    }
  }

  lemma TakeWf(s: Store, p: Paths, n: NodeId, t: Tenant, epoch: nat)
    requires Wf(s, p) && n in s && Clocked(s, epoch)
    requires n != ROOT ==> Hangs(s, p, n) && t in s[s[n].parent.value].tenants
    ensures Wf(Take(s, n, t), p) && Clocked(Take(s, n, t), epoch)
  {
    if t !in s[n].tenants { StampWf(s, p, n, t, 0); }
  }

  lemma TakeLang(s: Store, p: Paths, n: NodeId, t: Tenant, u: Tenant)
    requires Wf(s, p) && n in s
    ensures Lang(Take(s, n, t), p, u) == Lang(s, p, u) + if u == t then Prefixes(p[n]) else {}
  {
    if t in s[n].tenants {
      OwnedPrefixes(s, p, n, t);
    } else {
      StampLang(s, p, n, t, 0, u);
    }
  }

  /** Enrol the tenant at the root. */
  lemma InsertStart(g0: State, t: Tenant)
    requires Inv(g0)
    ensures Inserting(g0, Taken(g0, ROOT, t), t, "")
  {
    var g := Taken(g0, ROOT, t);
    TakeWf(g0.nodes, g0.paths, ROOT, t, g0.epoch);
    TakeTallied(g0.nodes, g0.paths, g0.counts, ROOT, t);
    forall u ensures Lang(g.nodes, g.paths, u) == Lang(g0.nodes, g0.paths, u) + if u == t then Prefixes("") else {} {
      TakeLang(g0.nodes, g0.paths, ROOT, t, u);
    }
  }

  lemma OwnedPrefixes(s: Store, p: Paths, n: NodeId, t: Tenant)
    requires p.Keys == s.Keys && n in s && t in s[n].tenants
    ensures Prefixes(p[n]) <= Lang(s, p, t)
  {
    forall x | x in Prefixes(p[n]) ensures x in Lang(s, p, t) {
      PrefixesMember(p[n], x);
      LangMember(s, p, t, x);
      assert Spells(s, p, t, n, x);
    }
  }

  ghost function WithSplit(g: State, m: NodeId, k: nat, id: NodeId): State
    requires Splittable(g.nodes, g.paths, m, k, id)
  {
    g.(nodes := Split(g.nodes, m, k, id), paths := SplitPaths(g.nodes, g.paths, m, k, id))
  }

  /** Splitting a node changes no language and no size. */
  lemma InsertSplit(g0: State, g: State, t: Tenant, x: string, m: NodeId, k: nat, id: NodeId)
    requires Inserting(g0, g, t, x) && Splittable(g.nodes, g.paths, m, k, id)
    ensures Inserting(g0, WithSplit(g, m, k, id), t, x)
  {
    var g' := WithSplit(g, m, k, id);
    SplitWf(g.nodes, g.paths, m, k, id);
    forall u ensures Lang(g'.nodes, g'.paths, u) == Lang(g0.nodes, g0.paths, u) + if u == t then Prefixes(x) else {} {
      SplitLang(g.nodes, g.paths, m, k, id, u);
      assert Lang(g.nodes, g.paths, u) == Lang(g0.nodes, g0.paths, u) + if u == t then Prefixes(x) else {};
    }
    forall u ensures OwnedSize(g'.nodes, u) == CountOf(g'.counts, u) {
      SplitSize(g.nodes, g.paths, m, k, id, u);
      assert OwnedSize(g.nodes, u) == CountOf(g.counts, u);
    }
    SplitClocked(g.nodes, g.paths, m, k, id, g.epoch);
  }

  lemma SplitClocked(s: Store, p: Paths, m: NodeId, k: nat, id: NodeId, e: nat)
    requires Splittable(s, p, m, k, id) && Clocked(s, e)
    ensures Clocked(Split(s, m, k, id), e)
    ensures Split(s, m, k, id)[ROOT].tenants == s[ROOT].tenants
  {
    var s' := Split(s, m, k, id);
    forall n, u | n in s' && u in s'[n].tenants
      ensures s'[n].tenants[u] == 0 || s'[n].tenants[u] < e
    {
      assert n != id ==> s'[n].tenants == s[n].tenants;
    }
    assert m in s && m != ROOT;
  }

  ghost function Taken(g: State, n: NodeId, t: Tenant): State
    requires n in g.nodes
  {
    g.(nodes := Take(g.nodes, n, t), counts := TakeCounts(g.nodes, g.counts, n, t))
  }

  /** Step down to the child `m` of a node already owned, taking ownership where it is missing. */
  lemma InsertDescend(g0: State, g: State, t: Tenant, q: NodeId, m: NodeId)
    requires q in g.nodes && q in g.paths && Inserting(g0, g, t, g.paths[q]) && t in g.nodes[q].tenants
    requires m in g.nodes && m != ROOT && g.nodes[m].parent == Some(q)
    ensures Inserting(g0, Taken(g, m, t), t, g.paths[m])
  {
    var g' := Taken(g, m, t);
    assert Hangs(g.nodes, g.paths, m);
    PrefixesMonotone(g.paths[q], g.paths[m]);
    TakeWf(g.nodes, g.paths, m, t, g.epoch);
    TakeTallied(g.nodes, g.paths, g.counts, m, t);
    forall u
      ensures Lang(g'.nodes, g'.paths, u) == Lang(g0.nodes, g0.paths, u) + if u == t then Prefixes(g.paths[m]) else {}
    {
      TakeLang(g.nodes, g.paths, m, t, u);
      assert Lang(g.nodes, g.paths, u) == Lang(g0.nodes, g0.paths, u) + if u == t then Prefixes(g.paths[q]) else {};
    }
  }

  lemma LeafTallied(s: Store, counts: map<Tenant, nat>, q: NodeId, id: NodeId, text: string, t: Tenant, e: nat)
    requires q in s && id !in s && text != "" && Tallied(s, counts)
    ensures Tallied(AddLeaf(s, q, id, text, t, e), Bump(counts, t, |text|))
  {
    forall u ensures OwnedSize(AddLeaf(s, q, id, text, t, e), u) == CountOf(Bump(counts, t, |text|), u) {
      AddLeafSize(s, q, id, text, t, e, u);
      assert OwnedSize(s, u) == CountOf(counts, u);
    }
  }

  lemma LeafClocked(s: Store, q: NodeId, id: NodeId, text: string, t: Tenant, e: nat)
    requires q in s && id !in s && text != "" && Clocked(s, e)
    ensures Clocked(AddLeaf(s, q, id, text, t, e), e + 1)
  {
    var s' := AddLeaf(s, q, id, text, t, e);
    assert forall n :: n in s ==> s'[n].tenants == s[n].tenants;
  }

  ghost function WithLeaf(g: State, t: Tenant, q: NodeId, id: NodeId, text: string): State
    requires q in g.nodes && q in g.paths && text != ""
  {
    State(AddLeaf(g.nodes, q, id, text, t, g.epoch), g.paths[id := g.paths[q] + text],
          Bump(g.counts, t, |text|), g.epoch + 1)
  }

  /** Hang the rest of the text below `q` as a new leaf. */
  lemma InsertLeaf(g0: State, g: State, t: Tenant, q: NodeId, id: NodeId, text: string)
    requires q in g.nodes && q in g.paths && Inserting(g0, g, t, g.paths[q]) && t in g.nodes[q].tenants
    requires id !in g.nodes && text != "" && text[0] !in g.nodes[q].children
    ensures Inserting(g0, WithLeaf(g, t, q, id, text), t, g.paths[q] + text)
  {
    var g' := WithLeaf(g, t, q, id, text);
    AddLeafWf(g.nodes, g.paths, q, id, text, t, g.epoch);
    LeafTallied(g.nodes, g.counts, q, id, text, t, g.epoch);
    LeafClocked(g.nodes, q, id, text, t, g.epoch);
    PrefixesMonotone(g.paths[q], g.paths[q] + text);
    forall u
      ensures Lang(g'.nodes, g'.paths, u) ==
              Lang(g0.nodes, g0.paths, u) + if u == t then Prefixes(g.paths[q] + text) else {}
    {
      AddLeafLang(g.nodes, g.paths, q, id, text, t, g.epoch, u);
      assert Lang(g.nodes, g.paths, u) == Lang(g0.nodes, g0.paths, u) + if u == t then Prefixes(g.paths[q]) else {};
    }
  }

  ghost function WithStamp(g: State, n: NodeId, t: Tenant): State
    requires n in g.nodes
  {
    g.(nodes := Stamp(g.nodes, n, t, g.epoch), epoch := g.epoch + 1)
  }

  /** Renewing the stamp of an owner changes nothing but the clock. */
  lemma RenewStamp(g: State, n: NodeId, t: Tenant)
    requires Inv(g) && n in g.nodes && t in g.nodes[n].tenants
    ensures var g' := WithStamp(g, n, t);
            Inv(g') && (forall u :: Lang(g'.nodes, g'.paths, u) == Lang(g.nodes, g.paths, u))
            && g'.nodes[ROOT].tenants.Keys == g.nodes[ROOT].tenants.Keys
  {
    var g' := WithStamp(g, n, t);
    if n != ROOT { assert Hangs(g.nodes, g.paths, n); }
    StampWf(g.nodes, g.paths, n, t, g.epoch);
    OwnedPrefixes(g.nodes, g.paths, n, t);
    forall u ensures Lang(g'.nodes, g'.paths, u) == Lang(g.nodes, g.paths, u) {
      StampLang(g.nodes, g.paths, n, t, g.epoch, u);
    }
    forall u ensures OwnedSize(g'.nodes, u) == CountOf(g'.counts, u) {
      StampSize(g.nodes, n, t, g.epoch, u);
      assert OwnedSize(g.nodes, u) == CountOf(g.counts, u);
    }
  }

  /** Once the whole text is in, the view is the specified one. */
  lemma InsertedView(g0: State, g: State, t: Tenant, text: string)
    requires Wf(g0.nodes, g0.paths) && Inserting(g0, g, t, text)
    ensures View(g) == Inserted(View(g0), text, t)
  {
    var a, b := View(g), Inserted(View(g0), text, t);
    ViewLang(g0, t);
    forall u | u in a.langs ensures u in b.langs && a.langs[u] == b.langs[u] {
      assert Lang(g.nodes, g.paths, u) == Lang(g0.nodes, g0.paths, u) + if u == t then Prefixes(text) else {};
    }
  }

  /** The node that ends `text` carries, for `t`, a stamp above all of `t`'s other non-root stamps. */
  ghost predicate FreshestAt(s: Store, n: NodeId, t: Tenant) {
    && n in s && t in s[n].tenants
    && forall m :: m in s && m != n && m != ROOT && t in s[m].tenants ==> s[m].tenants[t] < s[n].tenants[t]
  }

  ghost predicate Freshest(s: Store, p: Paths, text: string, t: Tenant)
    requires p.Keys == s.Keys
  {
    exists n :: n in s && p[n] == text && FreshestAt(s, n, t)
  }

  /** A stamp taken from the clock is fresher than everything before it. */
  lemma NewStampFreshest(s: Store, n: NodeId, t: Tenant, e: nat)
    requires n in s && Clocked(s, e)
    ensures FreshestAt(Stamp(s, n, t, e), n, t)
  {
  }

  lemma NewLeafFreshest(s: Store, q: NodeId, id: NodeId, text: string, t: Tenant, e: nat)
    requires q in s && id !in s && text != "" && Clocked(s, e)
    ensures FreshestAt(AddLeaf(s, q, id, text, t, e), id, t)
  {
    var s' := AddLeaf(s, q, id, text, t, e);
    assert forall n :: n in s ==> s'[n].tenants == s[n].tenants;
  }

  /** The end of an insert: the last node gets the current tick. */
  lemma InsertFinish(g0: State, g: State, t: Tenant, n: NodeId)
    requires n in g.nodes && n in g.paths && Inserting(g0, g, t, g.paths[n]) && t in g.nodes[n].tenants
    ensures var g' := WithStamp(g, n, t);
            Inserting(g0, g', t, g.paths[n]) && Freshest(g'.nodes, g'.paths, g.paths[n], t)
  {
    var g' := WithStamp(g, n, t);
    RenewStamp(g, n, t);
    NewStampFreshest(g.nodes, n, t, g.epoch);
    forall u
      ensures Lang(g'.nodes, g'.paths, u) == Lang(g0.nodes, g0.paths, u) + if u == t then Prefixes(g.paths[n]) else {}
    {
      assert Lang(g'.nodes, g'.paths, u) == Lang(g.nodes, g.paths, u);
      assert Lang(g.nodes, g.paths, u) == Lang(g0.nodes, g0.paths, u) + if u == t then Prefixes(g.paths[n]) else {};
    }
  }

  /** The insert of `text` for `t` that started in `g0` has led to `g`. */
  ghost predicate InsertedIn(g0: State, g: State, t: Tenant, text: string)
    requires Wf(g0.nodes, g0.paths)
  {
    Inv(g) && View(g) == Inserted(View(g0), text, t) && Freshest(g.nodes, g.paths, text, t)
  }

  lemma InsertLeafDone(g0: State, g: State, t: Tenant, q: NodeId, id: NodeId, text: string)
    requires q in g.nodes && q in g.paths && Inserting(g0, g, t, g.paths[q]) && t in g.nodes[q].tenants
    requires id !in g.nodes && text != "" && text[0] !in g.nodes[q].children
    ensures InsertedIn(g0, WithLeaf(g, t, q, id, text), t, g.paths[q] + text)
  {
    var g' := WithLeaf(g, t, q, id, text);
    InsertLeaf(g0, g, t, q, id, text);
    NewLeafFreshest(g.nodes, q, id, text, t, g.epoch);
    InsertedView(g0, g', t, g.paths[q] + text);
  }

  lemma InsertStampDone(g0: State, g: State, t: Tenant, n: NodeId)
    requires n in g.nodes && n in g.paths && Inserting(g0, g, t, g.paths[n]) && t in g.nodes[n].tenants
    ensures InsertedIn(g0, WithStamp(g, n, t), t, g.paths[n])
  {
    InsertFinish(g0, g, t, n);
    InsertedView(g0, WithStamp(g, n, t), t, g.paths[n]);
  }

  // ---------- what matching writes ----------

  function Remember(s: Store, n: NodeId, t: Tenant): Store
    requires n in s
  {
    s[n := s[n].(lastTenant := Some(t))]
  }

  lemma RememberWf(s: Store, p: Paths, n: NodeId, t: Tenant)
    requires Wf(s, p) && n in s
    ensures Wf(Remember(s, n, t), p)
  {
    var s' := Remember(s, n, t);
    forall m | m in s' ensures ChildLinks(s', m) {
      assert ChildLinks(s, m);
    }
    forall m | m in s' && m != ROOT ensures Hangs(s', p, m) {
      assert Hangs(s, p, m);
    }
  }

  lemma RememberSame(s: Store, p: Paths, n: NodeId, t: Tenant, u: Tenant)
    requires p.Keys == s.Keys && n in s
    ensures OwnedSize(Remember(s, n, t), u) == OwnedSize(s, u)
    ensures Lang(Remember(s, n, t), p, u) == Lang(s, p, u)
  {
    var s' := Remember(s, n, t);
    assert forall m :: m in s ==> s'[m].tenants == s[m].tenants && s'[m].text == s[m].text;
    assert Weights(s', u) == Weights(s, u);
    forall x ensures x in Lang(s', p, u) <==> x in Lang(s, p, u) {
      LangMember(s, p, u, x);
      LangMember(s', p, u, x);
      assert forall m :: Spells(s, p, u, m, x) <==> Spells(s', p, u, m, x);
    }
  }

  /** The cached tenant of a node plays no part in the structure, the languages or the sizes. */
  lemma RememberInert(g: State, n: NodeId, t: Tenant)
    requires Inv(g) && n in g.nodes
    ensures var g' := g.(nodes := Remember(g.nodes, n, t)); Inv(g') && View(g') == View(g)
  {
    var s' := Remember(g.nodes, n, t);
    RememberWf(g.nodes, g.paths, n, t);
    forall u
      ensures OwnedSize(s', u) == CountOf(g.counts, u)
      ensures Lang(s', g.paths, u) == Lang(g.nodes, g.paths, u)
    {
      RememberSame(g.nodes, g.paths, n, t, u);
      assert OwnedSize(g.nodes, u) == CountOf(g.counts, u);
    }
  }

  lemma TickInert(g: State)
    requires Inv(g)
    ensures Inv(g.(epoch := g.epoch + 1)) && View(g.(epoch := g.epoch + 1)) == View(g)
  {
  }

  lemma RenewView(g: State, n: NodeId, t: Tenant)
    requires Inv(g) && n in g.nodes && t in g.nodes[n].tenants
    ensures var g' := WithStamp(g, n, t);
            Inv(g') && View(g') == View(g)
  {
    RenewStamp(g, n, t);
  }

  /** Recording the sentinel at a root without owners; nothing else can be in such a tree. */
  lemma SentinelView(g: State)
    requires Inv(g) && g.nodes[ROOT].tenants == map[]
    ensures var g' := g.(nodes := Stamp(g.nodes, ROOT, SENTINEL, g.epoch), epoch := g.epoch + 1);
            Inv(g') && View(g').langs == map[SENTINEL := {""}] && View(g').counted == View(g).counted
  {
    var g' := g.(nodes := Stamp(g.nodes, ROOT, SENTINEL, g.epoch), epoch := g.epoch + 1);
    StampWf(g.nodes, g.paths, ROOT, SENTINEL, g.epoch);
    forall u ensures OwnedSize(g'.nodes, u) == CountOf(g'.counts, u) {
      StampSize(g.nodes, ROOT, SENTINEL, g.epoch, u);
      assert OwnedSize(g.nodes, u) == CountOf(g.counts, u);
    }
    StampLang(g.nodes, g.paths, ROOT, SENTINEL, g.epoch, SENTINEL);
    ViewLang(g, SENTINEL);
    PrefixesOfEmpty();
    assert Lang(g'.nodes, g'.paths, SENTINEL) == {""};
    assert View(g').langs.Keys == {SENTINEL};
    assert Enrolled(g'.nodes, g'.counts);
    assert Clocked(g'.nodes, g'.epoch);
  }
}
