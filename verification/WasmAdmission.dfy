/** Admission to the WASM middleware: a semaphore in front of a bounded queue in front of worker
    threads, as interleaved steps, with callers that may give up while waiting. */
module WasmAdmission {
  import opened Counting

  type Request = nat
  type Worker = nat

  /** A caller: it holds a permit from `Permitted` to `Answered`. */
  datatype Phase = Permitted | Awaiting | Answered | Done | Refused | Cancelled

  datatype World = World(
    free: nat,
    phases: map<Request, Phase>,
    queue: seq<Request>,
    running: map<Worker, Request>,
    replies: map<Request, nat>)

  datatype Action =
    | Arrive(r: Request)
    | TrySend(r: Request)
    | Dequeue(w: Worker)
    | Reply(w: Worker)
    | Finish(r: Request)
    | Cancel(r: Request)

  predicate HoldsPermit(p: Phase) { p.Permitted? || p.Awaiting? || p.Answered? }

  function Start(capacity: nat): World {
    World(capacity, map[], [], map[], map[])
  }

  function RepliesTo(s: World, r: Request): nat {
    if r in s.replies then s.replies[r] else 0
  }

  /** Callers can give up only while they wait for the answer. */
  predicate Enabled(s: World, a: Action) {
    match a
    case Arrive(r) => r !in s.phases
    case TrySend(r) => r in s.phases && s.phases[r].Permitted?
    case Dequeue(w) => w !in s.running && s.queue != []
    case Reply(w) => w in s.running
    case Finish(r) => r in s.phases && s.phases[r].Answered?
    case Cancel(r) => r in s.phases && (s.phases[r].Awaiting? || s.phases[r].Answered?)
  }

  function Step(s: World, a: Action, capacity: nat): World
    requires Enabled(s, a)
  {
    match a
    case Arrive(r) =>
      if s.free > 0 then s.(free := s.free - 1, phases := s.phases[r := Permitted])
      else s.(phases := s.phases[r := Refused])
    case TrySend(r) =>
      if |s.queue| < capacity then s.(queue := s.queue + [r], phases := s.phases[r := Awaiting])
      else s.(free := s.free + 1, phases := s.phases[r := Refused])
    case Dequeue(w) => s.(queue := s.queue[1..], running := s.running[w := s.queue[0]])
    case Reply(w) =>
      var r := s.running[w];
      s.(running := s.running - {w}, replies := s.replies[r := RepliesTo(s, r) + 1],
         phases := if r in s.phases && s.phases[r].Awaiting? then s.phases[r := Answered] else s.phases)
    case Finish(r) => s.(free := s.free + 1, phases := s.phases[r := Done])
    case Cancel(r) => s.(free := s.free + 1, phases := s.phases[r := Cancelled])
  }

  // ---------- invariant ----------

  /** Permits are conserved, and the queue respects its bound. */
  ghost predicate Conserved(s: World, capacity: nat) {
    s.free + Count(s.phases, HoldsPermit) == capacity && |s.queue| <= capacity
  }

  ghost predicate Sent(s: World, r: Request) {
    r in s.phases && (s.phases[r].Awaiting? || s.phases[r].Answered? || s.phases[r].Done? || s.phases[r].Cancelled?)
  }

  ghost predicate IsRunning(s: World, r: Request) {
    exists w :: w in s.running && s.running[w] == r
  }

  /** A sent request is in exactly one of three places: queued, with a worker, or answered once. */
  ghost predicate Placed(s: World, r: Request) {
    && (Sent(s, r) <==> r in s.queue || IsRunning(s, r) || RepliesTo(s, r) == 1)
    && RepliesTo(s, r) <= 1
    && !(r in s.queue && IsRunning(s, r))
    && (r in s.queue || IsRunning(s, r) ==> RepliesTo(s, r) == 0)
    && (r in s.phases && (s.phases[r].Answered? || s.phases[r].Done?) ==> RepliesTo(s, r) == 1)
    && (r in s.phases && s.phases[r].Awaiting? ==> RepliesTo(s, r) == 0)
  }

  ghost predicate Apart(s: World) {
    && (forall i, j :: 0 <= i < j < |s.queue| ==> s.queue[i] != s.queue[j])
    && (forall w, v :: w in s.running && v in s.running && w != v ==> s.running[w] != s.running[v])
  }

  ghost predicate Inv(s: World, capacity: nat) {
    Conserved(s, capacity) && Apart(s) && forall r {:trigger Placed(s, r)} :: Placed(s, r)
  }

  lemma StepConserves(s: World, a: Action, capacity: nat)
    requires Inv(s, capacity) && Enabled(s, a)
    ensures Conserved(Step(s, a, capacity), capacity)
  {
    match a
    case Arrive(r) =>
      CountUpdate(s.phases, HoldsPermit, r, if s.free > 0 then Permitted else Refused);
    case TrySend(r) =>
      CountUpdate(s.phases, HoldsPermit, r, if |s.queue| < capacity then Awaiting else Refused);
    case Dequeue(w) =>
    case Reply(w) =>
      CountUpdate(s.phases, HoldsPermit, s.running[w], Answered);
    case Finish(r) =>
      CountUpdate(s.phases, HoldsPermit, r, Done);
    case Cancel(r) =>
      CountUpdate(s.phases, HoldsPermit, r, Cancelled);
  }

  lemma DequeueRunning(s: World, w: Worker, capacity: nat, r: Request)
    requires Enabled(s, Dequeue(w))
    ensures IsRunning(Step(s, Dequeue(w), capacity), r) <==> IsRunning(s, r) || r == s.queue[0]
    ensures r in s.queue <==> r in s.queue[1..] || r == s.queue[0]
  {
    var t := Step(s, Dequeue(w), capacity);
    assert s.queue == [s.queue[0]] + s.queue[1..];
    assert t.running[w] == s.queue[0];
    if v :| v in s.running && s.running[v] == r { assert v in t.running && t.running[v] == r; }
  }

  lemma ReplyRunning(s: World, w: Worker, capacity: nat, r: Request)
    requires Apart(s) && Enabled(s, Reply(w))
    ensures IsRunning(Step(s, Reply(w), capacity), r) <==> IsRunning(s, r) && r != s.running[w]
  {
    var t := Step(s, Reply(w), capacity);
    if v :| v in s.running && s.running[v] == r { assert v != w ==> v in t.running && t.running[v] == r; }
  }

  lemma StepPlaces(s: World, a: Action, capacity: nat, r: Request)
    requires Inv(s, capacity) && Enabled(s, a)
    ensures Placed(Step(s, a, capacity), r)
  {
    assert Placed(s, r);
    match a
    case Dequeue(w) =>
      DequeueRunning(s, w, capacity, r);
      assert r == s.queue[0] ==> r !in s.queue[1..];
    case Reply(w) =>
      ReplyRunning(s, w, capacity, r);
      assert Placed(s, s.running[w]);
    case Arrive(q) => assert IsRunning(Step(s, a, capacity), r) <==> IsRunning(s, r);
    case TrySend(q) => assert IsRunning(Step(s, a, capacity), r) <==> IsRunning(s, r);
    case Finish(q) => assert IsRunning(Step(s, a, capacity), r) <==> IsRunning(s, r);
    case Cancel(q) => assert IsRunning(Step(s, a, capacity), r) <==> IsRunning(s, r);
  }

  lemma StepKeepsApart(s: World, a: Action, capacity: nat)
    requires Inv(s, capacity) && Enabled(s, a)
    ensures Apart(Step(s, a, capacity))
  {
    match a
    case TrySend(r) => assert Placed(s, r);
    case Dequeue(w) =>
      forall v | v in s.running ensures s.running[v] != s.queue[0] {
        assert Placed(s, s.queue[0]);
        assert s.queue[0] in s.queue;
      }
    case _ =>
  }

  lemma StepKeeps(s: World, a: Action, capacity: nat)
    requires Inv(s, capacity) && Enabled(s, a)
    ensures Inv(Step(s, a, capacity), capacity)
  {
    StepConserves(s, a, capacity);
    StepKeepsApart(s, a, capacity);
    forall r ensures Placed(Step(s, a, capacity), r) { StepPlaces(s, a, capacity, r); }
  }

  // ---------- runs ----------

  ghost predicate Run(ss: seq<World>, acts: seq<Action>, capacity: nat) {
    && |ss| == |acts| + 1 && ss[0] == Start(capacity)
    && forall i :: 0 <= i < |acts| ==> Enabled(ss[i], acts[i]) && ss[i + 1] == Step(ss[i], acts[i], capacity)
  }

  /** Permits are conserved, the queue is bounded and every request the workers took is answered
      exactly once, in every interleaving, with or without callers giving up. */
  lemma {:induction false} RunKeeps(ss: seq<World>, acts: seq<Action>, capacity: nat, n: nat)
    requires Run(ss, acts, capacity) && n < |ss|
    ensures Inv(ss[n], capacity)
  {
    if n == 0 {
      forall r ensures Placed(ss[0], r) {}
      assert Where(ss[0].phases, HoldsPermit) == {};
    } else {
      RunKeeps(ss, acts, capacity, n - 1);
      StepKeeps(ss[n - 1], acts[n - 1], capacity);
    }
  }

  /** No queued request has been given up by its caller. */
  ghost predicate AllWanted(s: World) {
    forall q :: q in s.queue ==> q in s.phases && s.phases[q] != Cancelled
  }

  /** Then the queued requests are among the permit holders, and apart from those yet to send. */
  lemma QueueWithinHolders(s: World, capacity: nat, r: Request)
    requires Inv(s, capacity) && AllWanted(s)
    ensures |s.queue| <= Count(s.phases, HoldsPermit)
    ensures Enabled(s, TrySend(r)) ==> |s.queue| < Count(s.phases, HoldsPermit)
  {
    var held := Where(s.phases, HoldsPermit);
    var others := if Enabled(s, TrySend(r)) then held - {r} else held;
    forall q | q in s.queue ensures q in others {
      assert Placed(s, q) && Placed(s, r);
    }
    DistinctWithin(s.queue, others);
    assert Enabled(s, TrySend(r)) ==> r in held;
  }

  /** A caller with a permit can find the queue full only if a queued request was given up. */
  lemma FullMeansCancelled(s: World, capacity: nat, r: Request)
    requires Inv(s, capacity) && Enabled(s, TrySend(r)) && |s.queue| >= capacity
    ensures exists q :: q in s.queue && q in s.phases && s.phases[q].Cancelled?
  {
    if AllWanted(s) {
      QueueWithinHolders(s, capacity, r);
    } else {
      var q :| q in s.queue && (q !in s.phases || s.phases[q] == Cancelled);
      assert Placed(s, q);
    }
  }

  /** Queued requests whose callers gave up. */
  ghost function GivenUp(s: World): set<Request> {
    set q | q in s.queue && q in s.phases && s.phases[q].Cancelled?
  }

  /** Permit holders whose requests are not queued: about to send, with a worker, or answered. */
  ghost function HoldersElsewhere(s: World): set<Request> {
    set q | q in Where(s.phases, HoldsPermit) && q !in s.queue
  }

  ghost function Members(q: seq<Request>): set<Request> {
    set r | r in q
  }

  lemma {:induction false} DistinctCard(q: seq<Request>)
    requires forall i, j :: 0 <= i < j < |q| ==> q[i] != q[j]
    ensures |Members(q)| == |q|
  {
    if q == [] {
      assert Members(q) == {};
    } else {
      var front, last := q[..|q| - 1], q[|q| - 1];
      DistinctCard(front);
      assert q == front + [last] && last !in front;
      assert Members(q) == Members(front) + {last};
    }
  }

  lemma OverlapCancels(a: set<Request>, b: set<Request>)
    ensures |a| + |b - a| == |b| + |a - b|
  {
    assert a == (a - b) + (a * b);
    assert b == (b - a) + (a * b);
  }

  /** Some of the queued requests were given up, the others hold permits. */
  lemma QueueParts(s: World, capacity: nat)
    requires Inv(s, capacity)
    ensures |s.queue| + |HoldersElsewhere(s)| == |GivenUp(s)| + Count(s.phases, HoldsPermit)
  {
    var held, queued := Where(s.phases, HoldsPermit), Members(s.queue);
    assert queued - held == GivenUp(s) by {
      forall q | q in s.queue ensures q in held <==> !(q in s.phases && s.phases[q].Cancelled?) { assert Placed(s, q); }
    }
    assert held - queued == HoldersElsewhere(s);
    DistinctCard(s.queue);
    OverlapCancels(queued, held);
  }

  /** Sending is refused exactly when the given-up requests in the queue are at least as many as the
      free permits and the permit holders outside the queue together. */
  lemma RefusedExactly(s: World, capacity: nat, r: Request)
    requires Inv(s, capacity) && Enabled(s, TrySend(r))
    ensures Step(s, TrySend(r), capacity).phases[r] == Refused <==>
            |GivenUp(s)| >= s.free + |HoldersElsewhere(s)|
  {
    QueueParts(s, capacity);
  }

  lemma {:induction false} NoCancelNoCancelled(ss: seq<World>, acts: seq<Action>, capacity: nat, n: nat, q: Request)
    requires Run(ss, acts, capacity) && n < |ss| && q in ss[n].phases
    requires forall i :: 0 <= i < n ==> !acts[i].Cancel?
    ensures ss[n].phases[q] != Cancelled
  {
    if n > 0 {
      assert ss[n] == Step(ss[n - 1], acts[n - 1], capacity);
      if q in ss[n - 1].phases { NoCancelNoCancelled(ss, acts, capacity, n - 1, q); }
    }
  }

  /** Without callers giving up, queued requests never outnumber the permit holders, and sending
      after acquiring a permit always finds room. */
  lemma SendAlwaysFits(ss: seq<World>, acts: seq<Action>, capacity: nat, n: nat, r: Request)
    requires Run(ss, acts, capacity) && n < |ss|
    requires forall i :: 0 <= i < n ==> !acts[i].Cancel?
    ensures |ss[n].queue| <= Count(ss[n].phases, HoldsPermit) == capacity - ss[n].free
    ensures Enabled(ss[n], TrySend(r)) ==>
              |ss[n].queue| < capacity && Step(ss[n], TrySend(r), capacity).phases[r] == Awaiting
  {
    RunKeeps(ss, acts, capacity, n);
    forall q | q in ss[n].queue ensures q in ss[n].phases && ss[n].phases[q] != Cancelled {
      assert Placed(ss[n], q);
      NoCancelNoCancelled(ss, acts, capacity, n, q);
    }
    QueueWithinHolders(ss[n], capacity, r);
  }

  /** With callers giving up that guarantee fails: a permit can be had while the queue is full. */
  lemma CancelCanBlockSend() returns (ss: seq<World>, acts: seq<Action>)
    ensures Run(ss, acts, 1) && |ss| == 6
    ensures 1 in ss[4].phases && ss[4].phases[1] == Permitted
    ensures 1 in ss[5].phases && ss[5].phases[1] == Refused
  {
    acts := [Arrive(0), TrySend(0), Cancel(0), Arrive(1), TrySend(1)];
    var s0 := Start(1);
    var s1 := Step(s0, acts[0], 1);
    var s2 := Step(s1, acts[1], 1);
    var s3 := Step(s2, acts[2], 1);
    var s4 := Step(s3, acts[3], 1);
    var s5 := Step(s4, acts[4], 1);
    ss := [s0, s1, s2, s3, s4, s5];
  }

  // ---------- arrivals and order ----------

  /** An arrival is refused exactly if all permits are held; else it holds one. */
  lemma ArrivalExactly(s: World, capacity: nat, r: Request)
    requires Inv(s, capacity) && Enabled(s, Arrive(r))
    ensures var t := Step(s, Arrive(r), capacity);
            && r in t.phases && t.phases[r] == (if Count(s.phases, HoldsPermit) == capacity then Refused else Permitted)
            && (s.free == 0 <==> Count(s.phases, HoldsPermit) == capacity)
  {
  }

  /** The requests that went into the queue during the first `n` actions, in order. */
  ghost function SentOrder(ss: seq<World>, acts: seq<Action>, capacity: nat, n: nat): seq<Request>
    requires Run(ss, acts, capacity) && n <= |acts|
  {
    if n == 0 then []
    else SentOrder(ss, acts, capacity, n - 1) +
         if acts[n - 1].TrySend? && |ss[n - 1].queue| < capacity then [acts[n - 1].r] else []
  }

  /** The requests that workers took, in order. */
  ghost function ServedOrder(ss: seq<World>, acts: seq<Action>, capacity: nat, n: nat): seq<Request>
    requires Run(ss, acts, capacity) && n <= |acts|
  {
    if n == 0 then []
    else ServedOrder(ss, acts, capacity, n - 1) +
         if acts[n - 1].Dequeue? && acts[n - 1].w in ss[n].running then [ss[n].running[acts[n - 1].w]] else []
  }

  /** First in, first out: what was taken, and then what is queued, is what was sent. */
  lemma {:induction false} FirstInFirstOut(ss: seq<World>, acts: seq<Action>, capacity: nat, n: nat)
    requires Run(ss, acts, capacity) && n <= |acts|
    ensures SentOrder(ss, acts, capacity, n) == ServedOrder(ss, acts, capacity, n) + ss[n].queue
  {
    if n > 0 {
      FirstInFirstOut(ss, acts, capacity, n - 1);
      var s, a := ss[n - 1], acts[n - 1];
      assert Enabled(s, a) && ss[n] == Step(s, a, capacity);
      if a.Dequeue? { assert s.queue == [s.queue[0]] + s.queue[1..]; }
    }
  }
}
