/** Whole runs of tree operations, on the abstract state. */
module TreeRuns {
  import opened Tenants
  import opened Text
  import opened TreeSpec

  datatype Event =
    | Insert(text: string, tenant: Tenant)
    | InsertCapped(text: string, tenant: Tenant, max: nat)
    | Match(epoch: nat)
    | Evict(max: nat)
    | Remove(tenant: Tenant)

  ghost predicate Step(a: Abstract, e: Event, b: Abstract) {
    match e
    case Insert(text, t) => b == Inserted(a, text, t)
    case InsertCapped(text, t, max) => b == if Admits(a, t, max) then Inserted(a, text, t) else a
    case Match(epoch) => b == Matched(a, epoch)
    case Evict(max) => Evicted(a, max, b)
    case Remove(t) => b == Removed(a, t)
  }

  /** `states[i]` is the state before event `i`; the run starts with an empty tree. */
  ghost predicate Run(states: seq<Abstract>, events: seq<Event>) {
    && |states| == |events| + 1
    && states[0] == EMPTY
    && forall i :: 0 <= i < |events| ==> Step(states[i], events[i], states[i + 1])
  }

  /** The event adds the prefixes of `text` to tenant `t`. */
  ghost predicate Adds(a: Abstract, e: Event, t: Tenant, text: string) {
    || e == Insert(text, t)
    || (e.InsertCapped? && e.text == text && e.tenant == t && Admits(a, t, e.max))
  }

  // ---------- every state is consistent ----------

  lemma StepConsistent(a: Abstract, e: Event, b: Abstract)
    requires Consistent(a) && Step(a, e, b)
    ensures Consistent(b)
  {
    match e
    case Insert(text, t) => InsertConsistent(a, text, t);
    case InsertCapped(text, t, max) => InsertConsistent(a, text, t);
    case Match(epoch) =>
    case Evict(max) =>
      forall t | t in b.langs ensures "" in b.langs[t] && PrefixClosed(b.langs[t]) {
        assert LangOf(b, t) == b.langs[t];
      }
    case Remove(t) =>
  }

  lemma InsertConsistent(a: Abstract, text: string, t: Tenant)
    requires Consistent(a)
    ensures Consistent(Inserted(a, text, t))
  {
    var l := LangOf(a, t) + Prefixes(text);
    PrefixesMember(text, "");
    forall x, y | y in l && x <= y ensures x in l {
      PrefixesMember(text, x);
      PrefixesMember(text, y);
    }
  }

  lemma {:induction false} RunConsistent(states: seq<Abstract>, events: seq<Event>, i: nat)
    requires Run(states, events) && i < |states|
    ensures Consistent(states[i])
  {
    if i > 0 {
      RunConsistent(states, events, i - 1);
      StepConsistent(states[i - 1], events[i - 1], states[i]);
    }
  }

  // ---------- nothing is made up, nothing is lost ----------

  lemma StepProvenance(a: Abstract, e: Event, b: Abstract, t: Tenant, x: string)
    requires Step(a, e, b) && x != "" && x in LangOf(b, t)
    ensures e != Remove(t)
    ensures x in LangOf(a, t) || exists text :: Adds(a, e, t, text) && x <= text
  {
    match e
    case Insert(text, u) =>
      PrefixesMember(text, x);
      if u == t { assert x in LangOf(a, t) || Adds(a, e, t, text); }
    case InsertCapped(text, u, max) =>
      PrefixesMember(text, x);
      if u == t && Admits(a, t, max) { assert x in LangOf(a, t) || Adds(a, e, t, text); }
    case Match(epoch) =>
    case Evict(max) => assert t in b.langs;
    case Remove(u) =>
  }

  /** Every stored string is a prefix of a text added for that tenant since its last removal. */
  lemma {:induction false} RunProvenance(states: seq<Abstract>, events: seq<Event>, n: nat, t: Tenant, x: string)
    returns (i: nat, text: string)
    requires Run(states, events) && n < |states| && x != "" && x in LangOf(states[n], t)
    ensures i < n && Adds(states[i], events[i], t, text) && x <= text
    ensures forall j :: i < j < n ==> events[j] != Remove(t)
    decreases n
  {
    StepProvenance(states[n - 1], events[n - 1], states[n], t, x);
    if x in LangOf(states[n - 1], t) {
      i, text := RunProvenance(states, events, n - 1, t, x);
    } else {
      text :| Adds(states[n - 1], events[n - 1], t, text) && x <= text;
      i := n - 1;
    }
  }

  lemma StepKeeps(a: Abstract, e: Event, b: Abstract, t: Tenant)
    requires Step(a, e, b) && e != Remove(t) && !e.Evict?
    ensures LangOf(a, t) <= LangOf(b, t)
  {
  }

  /** An added text stays, with all its prefixes, until the tenant is removed or eviction runs. */
  lemma {:induction false} RunRetains(states: seq<Abstract>, events: seq<Event>, i: nat, n: nat,
                                         t: Tenant, text: string)
    requires Run(states, events) && i < n < |states| && Adds(states[i], events[i], t, text)
    requires forall j :: i < j < n ==> events[j] != Remove(t) && !events[j].Evict?
    ensures Prefixes(text) <= LangOf(states[n], t)
    decreases n
  {
    assert Step(states[n - 1], events[n - 1], states[n]);
    if n > i + 1 {
      RunRetains(states, events, i, n - 1, t, text);
      StepKeeps(states[n - 1], events[n - 1], states[n], t);
    }
  }

  /** The sentinel never holds text unless some caller inserts under that very name. */
  lemma SentinelHoldsNoText(states: seq<Abstract>, events: seq<Event>, n: nat)
    requires Run(states, events) && n < |states|
    requires forall i :: 0 <= i < n ==>
               !(events[i].Insert? && events[i].tenant == SENTINEL) &&
               !(events[i].InsertCapped? && events[i].tenant == SENTINEL)
    ensures LangOf(states[n], SENTINEL) <= {""}
  {
    forall x | x in LangOf(states[n], SENTINEL) ensures x == "" {
      if x != "" {
        var i, text := RunProvenance(states, events, n, SENTINEL, x);
      }
    }
  }

  /** How the sentinel comes and goes: a match on an empty tree puts it there without a recorded
      size, and eviction takes it away. */
  lemma SentinelAppears(max: nat) returns (states: seq<Abstract>, events: seq<Event>)
    ensures Run(states, events) && events == [Match(0), Evict(max)]
    ensures states[1] == Abstract(map[SENTINEL := {""}], {}) && states[2] == EMPTY
  {
    events := [Match(0), Evict(max)];
    states := [EMPTY, Abstract(map[SENTINEL := {""}], {}), EMPTY];
    assert Step(states[0], events[0], states[1]) && Step(states[1], events[1], states[2]);
  }

  /** In every run a capped insert stores its text exactly if the tenant is below the budget; else the
      tree stays as it is. */
  lemma CappedExactly(states: seq<Abstract>, events: seq<Event>, i: nat)
    requires Run(states, events) && i < |events| && events[i].InsertCapped?
    ensures var InsertCapped(text, t, max) := events[i];
            if SizeOf(states[i], t) < max
            then LangOf(states[i + 1], t) == LangOf(states[i], t) + Prefixes(text)
                 && forall u :: u != t ==> LangOf(states[i + 1], u) == LangOf(states[i], u)
            else states[i + 1] == states[i]
  {
    RunConsistent(states, events, i);
    AdmitsExactly(states[i], events[i].tenant, events[i].max);
    assert Step(states[i], events[i], states[i + 1]);
  }
}
