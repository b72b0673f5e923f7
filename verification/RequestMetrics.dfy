/** Reference-counted request activity and waiting guards, down to single atomic updates of the
    counters and of the exported gauges. */
module RequestMetrics {
  import opened Counting

  type Id = nat

  /** Progress of the once-only assignment: entered, counter bumped, gauge bumped, complete. */
  datatype Once = Untouched | Entered | Counted | Shown | Complete

  /** One logical request: alive with some clones, or on its way out after the last drop. */
  datatype Activity =
    | Live(clones: nat, once: Once)
    | Dying
    | Subtracted
    | Gone

  /** A waiting guard: the flag has been read, the counter bumped, the gauge bumped; then dropped. */
  datatype Guard =
    | Read(active: bool)
    | GuardCounted
    | Held(active: bool)
    | GuardSubtracted
    | Dropped

  /** The once-only set-up of the waiting gauge; the counter value is read before it is set. */
  datatype SetUp = NotStarted | Started | Loaded(value: nat) | GaugeSet | Finished

  datatype World = World(
    activities: map<Id, Activity>,
    guards: map<Id, Guard>,
    running: nat,
    runningGauge: int,
    waiting: nat,
    waitingGauge: int,
    waitingEnabled: bool,
    setUp: SetUp)

  datatype Action =
    | Begin(id: Id) | Clone(id: Id) | Drop(id: Id)
    | MarkEnter(id: Id) | MarkCount(id: Id) | MarkShow(id: Id) | MarkLeave(id: Id)
    | Subtract(id: Id) | Unshow(id: Id)
    | GuardRead(id: Id) | GuardCount(id: Id) | GuardShow(id: Id)
    | GuardDrop(id: Id) | GuardUnshow(id: Id)
    | SetUpEnter | SetUpLoad | SetUpSet | SetUpEnable

  const START := World(map[], map[], 0, 0, 0, 0, false, NotStarted)

  predicate IsLive(s: World, id: Id) { id in s.activities && s.activities[id].Live? }

  predicate Marking(o: Once) { o.Entered? || o.Counted? || o.Shown? }

  predicate MarkIs(s: World, id: Id, o: Once) { IsLive(s, id) && s.activities[id].once == o }

  predicate GuardIs(s: World, id: Id, g: Guard) { id in s.guards && s.guards[id] == g }

  /** A thread marking the request borrows a clone, so the last one cannot go away meanwhile. */
  predicate Enabled(s: World, a: Action) {
    match a
    case Begin(id) => id !in s.activities
    case Clone(id) => IsLive(s, id)
    case Drop(id) => IsLive(s, id) && (s.activities[id].clones > 1 || !Marking(s.activities[id].once))
    case MarkEnter(id) => IsLive(s, id) && !Marking(s.activities[id].once)
    case MarkCount(id) => MarkIs(s, id, Entered)
    case MarkShow(id) => MarkIs(s, id, Counted)
    case MarkLeave(id) => MarkIs(s, id, Shown)
    case Subtract(id) => id in s.activities && s.activities[id].Dying?
    case Unshow(id) => id in s.activities && s.activities[id].Subtracted?
    case GuardRead(id) => id !in s.guards
    case GuardCount(id) => id in s.guards && s.guards[id].Read?
    case GuardShow(id) => GuardIs(s, id, GuardCounted)
    case GuardDrop(id) => id in s.guards && s.guards[id].Held?
    case GuardUnshow(id) => GuardIs(s, id, GuardSubtracted)
    case SetUpEnter => s.setUp.NotStarted?
    case SetUpLoad => s.setUp.Started?
    case SetUpSet => s.setUp.Loaded?
    case SetUpEnable => s.setUp.GaugeSet?
  }

  function SetActivity(s: World, id: Id, a: Activity): World { s.(activities := s.activities[id := a]) }

  function SetGuard(s: World, id: Id, g: Guard): World { s.(guards := s.guards[id := g]) }

  function Step(s: World, a: Action): World
    requires Enabled(s, a)
  {
    match a
    case Begin(id) => SetActivity(s, id, Live(1, Untouched))
    case Clone(id) => SetActivity(s, id, s.activities[id].(clones := s.activities[id].clones + 1))
    case Drop(id) =>
      var Live(n, o) := s.activities[id];
      SetActivity(s, id, if n > 1 then Live(n - 1, o) else if o.Complete? then Dying else Gone)
    case MarkEnter(id) =>
      var Live(n, o) := s.activities[id];
      if o.Complete? then s else SetActivity(s, id, Live(n, Entered))
    case MarkCount(id) =>
      SetActivity(s, id, s.activities[id].(once := Counted)).(running := s.running + 1)
    case MarkShow(id) =>
      SetActivity(s, id, s.activities[id].(once := Shown)).(runningGauge := s.runningGauge + 1)
    case MarkLeave(id) => SetActivity(s, id, s.activities[id].(once := Complete))
    case Subtract(id) =>
      if s.running > 0 then SetActivity(s, id, Subtracted).(running := s.running - 1)
      else SetActivity(s, id, Gone)
    case Unshow(id) => SetActivity(s, id, Gone).(runningGauge := s.runningGauge - 1)
    case GuardRead(id) => SetGuard(s, id, Read(s.waitingEnabled))
    case GuardCount(id) =>
      if s.guards[id].active then SetGuard(s, id, GuardCounted).(waiting := s.waiting + 1)
      else SetGuard(s, id, Held(false))
    case GuardShow(id) => SetGuard(s, id, Held(true)).(waitingGauge := s.waitingGauge + 1)
    case GuardDrop(id) =>
      if !s.guards[id].active then SetGuard(s, id, Dropped)
      else if s.waiting > 0 then SetGuard(s, id, GuardSubtracted).(waiting := s.waiting - 1)
      else SetGuard(s, id, Dropped)
    case GuardUnshow(id) => SetGuard(s, id, Dropped).(waitingGauge := s.waitingGauge - 1)
    case SetUpEnter => s.(setUp := Started)
    case SetUpLoad => s.(setUp := Loaded(s.waiting))
    case SetUpSet => s.(setUp := GaugeSet, waitingGauge := s.setUp.value)
    case SetUpEnable => s.(setUp := Finished, waitingEnabled := true)
  }

  // ---------- what the counters mean ----------

  predicate InRunning(a: Activity) {
    a.Dying? || (a.Live? && (a.once.Counted? || a.once.Shown? || a.once.Complete?))
  }

  predicate InRunningGauge(a: Activity) {
    a.Dying? || a.Subtracted? || (a.Live? && (a.once.Shown? || a.once.Complete?))
  }

  predicate InWaiting(g: Guard) { g.GuardCounted? || g == Held(true) }

  predicate InWaitingGauge(g: Guard) { g == Held(true) || g.GuardSubtracted? }

  predicate Inactive(g: Guard) { g == Read(false) || g == Held(false) || g.Dropped? }

  ghost predicate RunningExact(s: World) {
    && s.running == Count(s.activities, InRunning)
    && s.runningGauge == Count(s.activities, InRunningGauge)
    && forall id :: IsLive(s, id) ==> s.activities[id].clones > 0
  }

  ghost predicate WaitingExact(s: World) {
    && s.waiting == Count(s.guards, InWaiting)
    && s.waitingGauge == Count(s.guards, InWaitingGauge)
    && (s.waitingEnabled <==> s.setUp.Finished?)
    && (!s.waitingEnabled ==> forall id :: id in s.guards ==> Inactive(s.guards[id]))
    && (s.setUp.Loaded? ==> s.setUp.value == 0)
  }

  ghost predicate Inv(s: World) {
    RunningExact(s) && WaitingExact(s)
  }

  predicate IsActivityAction(a: Action) {
    || a.Begin? || a.Clone? || a.Drop? || a.Subtract? || a.Unshow?
    || a.MarkEnter? || a.MarkCount? || a.MarkShow? || a.MarkLeave?
  }

  predicate IsGuardAction(a: Action) {
    a.GuardRead? || a.GuardCount? || a.GuardShow? || a.GuardDrop? || a.GuardUnshow?
  }

  /** The subtraction for the last clone never fails. */
  lemma SubtractSucceeds(s: World, id: Id)
    requires RunningExact(s) && Enabled(s, Subtract(id))
    ensures s.running > 0
  {
    CountPositive(s.activities, InRunning, id);
  }

  lemma GuardDropSucceeds(s: World, id: Id)
    requires WaitingExact(s) && Enabled(s, GuardDrop(id)) && s.guards[id].active
    ensures s.waiting > 0
  {
    CountPositive(s.guards, InWaiting, id);
  }

  /** Setting the gauge up overwrites nothing: no guard has touched counter or gauge before. */
  lemma SetUpOverwritesNothing(s: World)
    requires WaitingExact(s) && Enabled(s, SetUpSet)
    ensures Step(s, SetUpSet).waitingGauge == s.waitingGauge
  {
    CountNone(s.guards, InWaitingGauge);
  }

  lemma ActivityStepKeeps(s: World, a: Action)
    requires RunningExact(s) && Enabled(s, a) && IsActivityAction(a)
    ensures RunningExact(Step(s, a))
  {
    if a.Subtract? { SubtractSucceeds(s, a.id); }
    var id, v := a.id, Step(s, a).activities[a.id];
    assert Step(s, a).activities == s.activities[id := v];
    CountUpdate(s.activities, InRunning, id, v);
    CountUpdate(s.activities, InRunningGauge, id, v);
  }

  lemma GuardStepKeeps(s: World, a: Action)
    requires WaitingExact(s) && Enabled(s, a) && IsGuardAction(a)
    ensures WaitingExact(Step(s, a))
  {
    var id := a.id;
    if a.GuardDrop? && s.guards[id].active { GuardDropSucceeds(s, id); }
    var v := Step(s, a).guards[id];
    assert Step(s, a).guards == s.guards[id := v];
    CountUpdate(s.guards, InWaiting, id, v);
    CountUpdate(s.guards, InWaitingGauge, id, v);
  }

  lemma SetUpStepKeeps(s: World, a: Action)
    requires WaitingExact(s) && Enabled(s, a) && (a.SetUpEnter? || a.SetUpLoad? || a.SetUpSet? || a.SetUpEnable?)
    ensures WaitingExact(Step(s, a))
  {
    CountNone(s.guards, InWaiting);
    CountNone(s.guards, InWaitingGauge);
  }

  lemma StepKeeps(s: World, a: Action)
    requires Inv(s) && Enabled(s, a)
    ensures Inv(Step(s, a))
  {
    if IsActivityAction(a) {
      ActivityStepKeeps(s, a);
    } else if IsGuardAction(a) {
      GuardStepKeeps(s, a);
    } else {
      SetUpStepKeeps(s, a);
    }
  }

  // ---------- runs ----------

  ghost predicate Run(ss: seq<World>, acts: seq<Action>) {
    && |ss| == |acts| + 1 && ss[0] == START
    && forall i :: 0 <= i < |acts| ==> Enabled(ss[i], acts[i]) && ss[i + 1] == Step(ss[i], acts[i])
  }

  lemma {:induction false} RunKeeps(ss: seq<World>, acts: seq<Action>, n: nat)
    requires Run(ss, acts) && n < |ss|
    ensures Inv(ss[n])
  {
    if n == 0 {
      CountNone(START.activities, InRunning);
      CountNone(START.activities, InRunningGauge);
      CountNone(START.guards, InWaiting);
      CountNone(START.guards, InWaitingGauge);
    } else {
      RunKeeps(ss, acts, n - 1);
      StepKeeps(ss[n - 1], acts[n - 1]);
    }
  }

  predicate AssignedAlive(a: Activity) { a.Live? && a.once.Complete? }

  predicate ActiveHeld(g: Guard) { g == Held(true) }

  /** No call is half way through. */
  ghost predicate Quiet(s: World) {
    && (forall id :: id in s.activities ==>
          !s.activities[id].Dying? && !s.activities[id].Subtracted?
          && (s.activities[id].Live? ==> !Marking(s.activities[id].once)))
    && (forall id :: id in s.guards ==>
          !s.guards[id].Read? && !s.guards[id].GuardCounted? && !s.guards[id].GuardSubtracted?)
  }

  /** Between calls, counters and gauges are the numbers of assigned requests with a live clone and
      of active guards. */
  lemma CountersMeanWhatTheySay(ss: seq<World>, acts: seq<Action>, n: nat)
    requires Run(ss, acts) && n < |ss| && Quiet(ss[n])
    ensures ss[n].running == ss[n].runningGauge == Count(ss[n].activities, AssignedAlive)
    ensures ss[n].waiting == ss[n].waitingGauge == Count(ss[n].guards, ActiveHeld)
  {
    RunKeeps(ss, acts, n);
    var s := ss[n];
    assert Where(s.activities, InRunning) == Where(s.activities, AssignedAlive);
    assert Where(s.activities, InRunningGauge) == Where(s.activities, AssignedAlive);
    assert Where(s.guards, InWaiting) == Where(s.guards, ActiveHeld);
    assert Where(s.guards, InWaitingGauge) == Where(s.guards, ActiveHeld);
  }

  // ---------- read off the actions alone ----------

  /** Handles of request `id` still around after `n` actions: begun, cloned, dropped. */
  function Handles(acts: seq<Action>, n: nat, id: Id): int
    requires n <= |acts|
  {
    if n == 0 then 0
    else
      var before, a := Handles(acts, n - 1, id), acts[n - 1];
      if a == Begin(id) || a == Clone(id) then before + 1 else if a == Drop(id) then before - 1 else before
  }

  /** The action is among the first `n`. */
  predicate Happened(acts: seq<Action>, n: nat, a: Action)
    requires n <= |acts|
  {
    n > 0 && (acts[n - 1] == a || Happened(acts, n - 1, a))
  }

  /** What the history of a request says about it. */
  ghost predicate Recorded(s: World, id: Id, handles: int, marked: bool) {
    && handles >= 0 && (IsLive(s, id) <==> handles > 0)
    && (IsLive(s, id) ==> s.activities[id].clones == handles && (s.activities[id].once.Complete? <==> marked))
    && (id !in s.activities ==> !marked)
  }

  lemma RecordedStep(s: World, a: Action, id: Id, handles: int, marked: bool)
    requires Enabled(s, a) && Recorded(s, id, handles, marked)
    ensures Recorded(Step(s, a), id,
                     if a == Begin(id) || a == Clone(id) then handles + 1
                     else if a == Drop(id) then handles - 1 else handles,
                     marked || a == MarkLeave(id))
  {
  }

  /** A request is live while it has handles, and its assignment is complete once a mark has ended. */
  lemma {:induction false} ActivityHistory(ss: seq<World>, acts: seq<Action>, n: nat, id: Id)
    requires Run(ss, acts) && n < |ss|
    ensures Recorded(ss[n], id, Handles(acts, n, id), Happened(acts, n, MarkLeave(id)))
  {
    if n > 0 {
      ActivityHistory(ss, acts, n - 1, id);
      RecordedStep(ss[n - 1], acts[n - 1], id, Handles(acts, n - 1, id), Happened(acts, n - 1, MarkLeave(id)));
    }
  }

  /** The mark of the request has got past bumping the counter. */
  predicate PastCount(s: World, id: Id) {
    id in s.activities
    && (IsLive(s, id) ==> !s.activities[id].once.Untouched? && !s.activities[id].once.Entered?)
  }

  lemma PastCountStep(s: World, a: Action, id: Id)
    requires Enabled(s, a) && (PastCount(s, id) || a == MarkCount(id))
    ensures PastCount(Step(s, a), id) && (PastCount(s, id) ==> a != MarkCount(id))
  {
  }

  /** How often the action is among the first `n`. */
  function Times(acts: seq<Action>, n: nat, a: Action): nat
    requires n <= |acts|
  {
    if n == 0 then 0 else Times(acts, n - 1, a) + if acts[n - 1] == a then 1 else 0
  }

  /** The counter is bumped at most once for a request. */
  lemma {:induction false} MarkedOnce(ss: seq<World>, acts: seq<Action>, n: nat, id: Id)
    requires Run(ss, acts) && n < |ss|
    ensures Times(acts, n, MarkCount(id)) <= 1
    ensures Times(acts, n, MarkCount(id)) > 0 ==> PastCount(ss[n], id)
  {
    if n > 0 {
      MarkedOnce(ss, acts, n - 1, id);
      var s, a := ss[n - 1], acts[n - 1];
      if PastCount(s, id) || a == MarkCount(id) { PastCountStep(s, a, id); }
    }
  }

  lemma {:induction false} EnabledHistory(ss: seq<World>, acts: seq<Action>, n: nat)
    requires Run(ss, acts) && n < |ss|
    ensures ss[n].waitingEnabled <==> Happened(acts, n, SetUpEnable)
  {
    if n > 0 {
      EnabledHistory(ss, acts, n - 1);
      assert ss[n] == Step(ss[n - 1], acts[n - 1]);
    }
  }

  /** What the history of a guard says about it. */
  ghost predicate GuardRecorded(s: World, id: Id, active: bool, dropped: bool) {
    && id in s.guards
    && var g := s.guards[id];
    && (g.Read? || g.Held? ==> g.active == active)
    && (g.GuardCounted? || g.GuardSubtracted? ==> active)
    && (g.GuardSubtracted? || g.Dropped? <==> dropped)
  }

  lemma GuardRecordedStep(s: World, a: Action, id: Id, active: bool, dropped: bool)
    requires Enabled(s, a) && GuardRecorded(s, id, active, dropped)
    ensures GuardRecorded(Step(s, a), id, active, dropped || a == GuardDrop(id))
  {
  }

  /** A guard is active, from its creation to its drop, exactly if waiting was enabled when it was made. */
  lemma {:induction false} GuardHistory(ss: seq<World>, acts: seq<Action>, i: nat, n: nat, id: Id)
    requires Run(ss, acts) && i < n <= |acts| && acts[i] == GuardRead(id)
    ensures GuardRecorded(ss[n], id, Happened(acts, i, SetUpEnable), Happened(acts, n, GuardDrop(id)))
    decreases n
  {
    if i + 1 < n {
      GuardHistory(ss, acts, i, n - 1, id);
      GuardRecordedStep(ss[n - 1], acts[n - 1], id,
                        Happened(acts, i, SetUpEnable), Happened(acts, n - 1, GuardDrop(id)));
    } else {
      EnabledHistory(ss, acts, i);
      NotDroppedYet(ss, acts, i, id);
      assert Enabled(ss[i], acts[i]) && ss[n] == Step(ss[i], acts[i]);
    }
  }

  /** Only a guard that was made can have been dropped. */
  lemma {:induction false} NotDroppedYet(ss: seq<World>, acts: seq<Action>, n: nat, id: Id)
    requires Run(ss, acts) && n < |ss|
    ensures Happened(acts, n, GuardDrop(id)) ==> id in ss[n].guards
  {
    if n > 0 {
      NotDroppedYet(ss, acts, n - 1, id);
      assert Enabled(ss[n - 1], acts[n - 1]) && ss[n] == Step(ss[n - 1], acts[n - 1]);
    }
  }

  /** Of the requests `ids`, those with a handle and an ended mark. */
  ghost function Assigned(acts: seq<Action>, n: nat, ids: set<Id>): set<Id>
    requires n <= |acts|
  {
    set id | id in ids && Handles(acts, n, id) > 0 && Happened(acts, n, MarkLeave(id))
  }

  lemma AssignedIs(ss: seq<World>, acts: seq<Action>, n: nat)
    requires Run(ss, acts) && n < |ss|
    ensures Where(ss[n].activities, AssignedAlive) == Assigned(acts, n, ss[n].activities.Keys)
  {
    var s := ss[n];
    forall id ensures id in Where(s.activities, AssignedAlive) <==> id in Assigned(acts, n, s.activities.Keys) {
      ActivityHistory(ss, acts, n, id);
    }
  }

  /** So between calls the running counter is the number of requests with a handle and an ended mark. */
  lemma RunningMeans(ss: seq<World>, acts: seq<Action>, n: nat)
    requires Run(ss, acts) && n < |ss| && Quiet(ss[n])
    ensures ss[n].running == |Assigned(acts, n, ss[n].activities.Keys)|
  {
    CountersMeanWhatTheySay(ss, acts, n);
    AssignedIs(ss, acts, n);
  }

  /** A mark on a live request that has none goes through, and counts it. */
  lemma MarkGoesThrough(s: World, id: Id) returns (ss: seq<World>)
    requires MarkIs(s, id, Untouched)
    ensures var acts := [MarkEnter(id), MarkCount(id), MarkShow(id), MarkLeave(id)];
            |ss| == 5 && ss[0] == s &&
            forall i :: 0 <= i < 4 ==> Enabled(ss[i], acts[i]) && ss[i + 1] == Step(ss[i], acts[i])
    ensures MarkIs(ss[4], id, Complete) && ss[4].activities[id].clones == s.activities[id].clones
    ensures ss[4].running == s.running + 1 && ss[4].runningGauge == s.runningGauge + 1
  {
    var s1 := Step(s, MarkEnter(id));
    var s2 := Step(s1, MarkCount(id));
    var s3 := Step(s2, MarkShow(id));
    ss := [s, s1, s2, s3, Step(s3, MarkLeave(id))];
  }

  /** A guard made while waiting is enabled counts, once it is there. */
  lemma GuardGoesThrough(s: World, id: Id) returns (ss: seq<World>)
    requires s.waitingEnabled && id !in s.guards
    ensures var acts := [GuardRead(id), GuardCount(id), GuardShow(id)];
            |ss| == 4 && ss[0] == s &&
            forall i :: 0 <= i < 3 ==> Enabled(ss[i], acts[i]) && ss[i + 1] == Step(ss[i], acts[i])
    ensures GuardIs(ss[3], id, Held(true))
    ensures ss[3].waiting == s.waiting + 1 && ss[3].waitingGauge == s.waitingGauge + 1
  {
    var s1 := Step(s, GuardRead(id));
    var s2 := Step(s1, GuardCount(id));
    ss := [s, s1, s2, Step(s2, GuardShow(id))];
  }
}
