/** Single-flight loading of model frontends: any number of concurrent resolves with no pin set,
    as interleaved steps around one load lock. */
module TokenizerCache {
  import opened Options

  type Caller = nat
  type Key = string

  /** Each load that succeeds makes a frontend of its own. */
  type Frontend = nat

  datatype Phase =
    | Looking(key: Key)
    | WantsLock(key: Key)
    | HasLock(key: Key)
    | Loading(key: Key)
    | LoadedNew(key: Key, frontend: Frontend)
    | Returned(key: Key, result: Option<Frontend>)

  datatype World = World(
    byModel: map<Key, Frontend>,
    lock: Option<Caller>,
    callers: map<Caller, Phase>,
    nextFrontend: Frontend,
    loads: seq<(Key, Frontend)>)

  datatype Action =
    | Call(c: Caller, key: Key)
    | FastCheck(c: Caller)
    | Acquire(c: Caller)
    | Recheck(c: Caller)
    | LoadOk(c: Caller)
    | LoadFail(c: Caller)
    | Publish(c: Caller)
    | Abandon(c: Caller)

  const START := World(map[], None, map[], 0, [])

  predicate At(s: World, c: Caller) { c in s.callers }

  predicate Enabled(s: World, a: Action) {
    match a
    case Call(c, key) => c !in s.callers
    case FastCheck(c) => At(s, c) && s.callers[c].Looking?
    case Acquire(c) => At(s, c) && s.callers[c].WantsLock? && s.lock.None?
    case Recheck(c) => At(s, c) && s.callers[c].HasLock?
    case LoadOk(c) => At(s, c) && s.callers[c].Loading?
    case LoadFail(c) => At(s, c) && s.callers[c].Loading?
    case Publish(c) => At(s, c) && s.callers[c].LoadedNew?
    case Abandon(c) => At(s, c) && (s.callers[c].WantsLock? || s.callers[c].Loading?)
  }

  function Goto(s: World, c: Caller, p: Phase): World { s.(callers := s.callers[c := p]) }

  function Step(s: World, a: Action): World
    requires Enabled(s, a)
  {
    match a
    case Call(c, key) => Goto(s, c, Looking(key))
    case FastCheck(c) =>
      var key := s.callers[c].key;
      Goto(s, c, if key in s.byModel then Returned(key, Some(s.byModel[key])) else WantsLock(key))
    case Acquire(c) => Goto(s, c, HasLock(s.callers[c].key)).(lock := Some(c))
    case Recheck(c) =>
      var key := s.callers[c].key;
      if key in s.byModel then Goto(s, c, Returned(key, Some(s.byModel[key]))).(lock := None)
      else Goto(s, c, Loading(key))
    case LoadOk(c) =>
      var key := s.callers[c].key;
      Goto(s, c, LoadedNew(key, s.nextFrontend))
        .(nextFrontend := s.nextFrontend + 1, loads := s.loads + [(key, s.nextFrontend)])
    case LoadFail(c) => Goto(s, c, Returned(s.callers[c].key, None)).(lock := None)
    case Publish(c) =>
      var LoadedNew(key, f) := s.callers[c];
      Goto(s, c, Returned(key, Some(f))).(byModel := s.byModel[key := f], lock := None)
    case Abandon(c) =>
      Goto(s, c, Returned(s.callers[c].key, None)).(lock := if s.callers[c].Loading? then None else s.lock)
  }

  // ---------- invariant ----------

  predicate InsideLock(p: Phase) { p.HasLock? || p.Loading? || p.LoadedNew? }

  /** The key is loaded: published, or in the hands of the caller about to publish it. */
  ghost predicate Owns(s: World, key: Key, f: Frontend) {
    || (key in s.byModel && s.byModel[key] == f)
    || (s.lock.Some? && s.lock.value in s.callers && s.callers[s.lock.value] == LoadedNew(key, f))
  }

  ghost predicate CallerOk(s: World, c: Caller)
    requires c in s.callers
  {
    && (InsideLock(s.callers[c]) ==> s.lock == Some(c))
    && (s.callers[c].Loading? || s.callers[c].LoadedNew? ==> s.callers[c].key !in s.byModel)
    && (s.callers[c].LoadedNew? ==> (s.callers[c].key, s.callers[c].frontend) in s.loads)
    && (s.callers[c].Returned? && s.callers[c].result.Some? ==>
          s.callers[c].key in s.byModel && s.byModel[s.callers[c].key] == s.callers[c].result.value)
  }

  ghost predicate Inv(s: World) {
    && (s.lock.Some? ==> s.lock.value in s.callers && InsideLock(s.callers[s.lock.value]))
    && (forall c {:trigger CallerOk(s, c)} :: c in s.callers ==> CallerOk(s, c))
    && (forall i :: 0 <= i < |s.loads| ==> Owns(s, s.loads[i].0, s.loads[i].1))
    && (forall i, j :: 0 <= i < j < |s.loads| ==> s.loads[i].0 != s.loads[j].0)
  }

  lemma StepCallers(s: World, a: Action, c: Caller)
    requires Inv(s) && Enabled(s, a) && c in Step(s, a).callers
    ensures CallerOk(Step(s, a), c)
  {
    assert c in s.callers ==> CallerOk(s, c);
    assert a.c in s.callers ==> CallerOk(s, a.c);
  }

  lemma StepLoads(s: World, a: Action)
    requires Inv(s) && Enabled(s, a)
    ensures var t := Step(s, a);
            && (forall i :: 0 <= i < |t.loads| ==> Owns(t, t.loads[i].0, t.loads[i].1))
            && (forall i, j :: 0 <= i < j < |t.loads| ==> t.loads[i].0 != t.loads[j].0)
  {
    var t := Step(s, a);
    assert a.c in s.callers ==> CallerOk(s, a.c);
    forall i | 0 <= i < |s.loads|
      ensures Owns(t, s.loads[i].0, s.loads[i].1)
      ensures a.LoadOk? ==> s.loads[i].0 != s.callers[a.c].key
    {
      assert Owns(s, s.loads[i].0, s.loads[i].1);
    }
  }

  lemma StepKeeps(s: World, a: Action)
    requires Inv(s) && Enabled(s, a)
    ensures Inv(Step(s, a))
  {
    var t := Step(s, a);
    assert a.c in s.callers ==> CallerOk(s, a.c);
    forall c | c in t.callers ensures CallerOk(t, c) { StepCallers(s, a, c); }
    StepLoads(s, a);
  }

  // ---------- runs ----------

  ghost predicate Run(ss: seq<World>, acts: seq<Action>) {
    && |ss| == |acts| + 1 && ss[0] == START
    && forall i :: 0 <= i < |acts| ==> Enabled(ss[i], acts[i]) && ss[i + 1] == Step(ss[i], acts[i])
  }

  lemma {:induction false} RunKeeps(ss: seq<World>, acts: seq<Action>, n: nat)
    requires Run(ss, acts) && n < |ss|
    ensures Inv(ss[n])
  {
    if n > 0 {
      RunKeeps(ss, acts, n - 1);
      StepKeeps(ss[n - 1], acts[n - 1]);
    }
  }

  /** A published frontend stays. */
  lemma {:induction false} PublishedStays(ss: seq<World>, acts: seq<Action>, m: nat, n: nat, key: Key)
    requires Run(ss, acts) && m <= n < |ss| && key in ss[m].byModel
    ensures key in ss[n].byModel && ss[n].byModel[key] == ss[m].byModel[key]
    decreases n
  {
    if n > m {
      PublishedStays(ss, acts, m, n - 1, key);
      RunKeeps(ss, acts, n - 1);
      var s, a := ss[n - 1], acts[n - 1];
      assert ss[n] == Step(s, a);
      assert a.c in s.callers ==> CallerOk(s, a.c);
    }
  }

  /** In every interleaving each key is loaded successfully at most once. */
  lemma LoadedAtMostOnce(ss: seq<World>, acts: seq<Action>, n: nat, i: nat, j: nat)
    requires Run(ss, acts) && n < |ss| && i < |ss[n].loads| && j < |ss[n].loads|
    requires ss[n].loads[i].0 == ss[n].loads[j].0
    ensures i == j
  {
    RunKeeps(ss, acts, n);
  }

  /** All calls for a key that succeed, whenever they return, return the same frontend. */
  lemma SameFrontendForAll(ss: seq<World>, acts: seq<Action>, m: nat, n: nat, c: Caller, d: Caller)
    requires Run(ss, acts) && m <= n < |ss|
    requires c in ss[m].callers && ss[m].callers[c].Returned? && ss[m].callers[c].result.Some?
    requires d in ss[n].callers && ss[n].callers[d].Returned? && ss[n].callers[d].result.Some?
    requires ss[m].callers[c].key == ss[n].callers[d].key
    ensures ss[m].callers[c].result == ss[n].callers[d].result
  {
    RunKeeps(ss, acts, m);
    RunKeeps(ss, acts, n);
    assert CallerOk(ss[m], c) && CallerOk(ss[n], d);
    PublishedStays(ss, acts, m, n, ss[m].callers[c].key);
  }

  // ---------- who gets a frontend ----------

  /** A check that finds the key published returns what is published. */
  lemma HitReturns(s: World, c: Caller)
    requires c in s.callers && (s.callers[c].Looking? || s.callers[c].HasLock?) && s.callers[c].key in s.byModel
    ensures var a := if s.callers[c].Looking? then FastCheck(c) else Recheck(c);
            var key := s.callers[c].key;
            Enabled(s, a) && c in Step(s, a).callers && Step(s, a).callers[c] == Returned(key, Some(s.byModel[key]))
  {
  }

  /** A call returns nothing only if its own load failed or it was given up. */
  lemma {:induction false} NothingMeansFailed(ss: seq<World>, acts: seq<Action>, n: nat, c: Caller)
    requires Run(ss, acts) && n < |ss| && c in ss[n].callers
    requires ss[n].callers[c].Returned? && ss[n].callers[c].result.None?
    ensures exists i :: 0 <= i < n && (acts[i] == LoadFail(c) || acts[i] == Abandon(c))
  {
    if n > 0 {
      var s, a := ss[n - 1], acts[n - 1];
      assert ss[n] == Step(s, a);
      if a != LoadFail(c) && a != Abandon(c) {
        NothingMeansFailed(ss, acts, n - 1, c);
      }
    }
  }

  /** The caller whose load succeeded publishes that frontend and returns it, if it goes on at all. */
  lemma {:induction false} LoaderReturns(ss: seq<World>, acts: seq<Action>, i: nat, n: nat, c: Caller)
    requires Run(ss, acts) && i < n <= |acts| && acts[i] == LoadOk(c)
    ensures c in ss[n].callers
    ensures var key, f := ss[i].callers[c].key, ss[i].nextFrontend;
            || ss[n].callers[c] == LoadedNew(key, f)
            || (ss[n].callers[c] == Returned(key, Some(f)) && key in ss[n].byModel && ss[n].byModel[key] == f)
    decreases n
  {
    assert Enabled(ss[n - 1], acts[n - 1]) && ss[n] == Step(ss[n - 1], acts[n - 1]);
    if i + 1 < n {
      LoaderReturns(ss, acts, i, n - 1, c);
      assert c in ss[n - 1].callers;
      if ss[n - 1].callers[c].Returned? {
        PublishedStays(ss, acts, n - 1, n, ss[n - 1].callers[c].key);
      }
    }
  }
}
