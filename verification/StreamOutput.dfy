/** First-output tracking across a queued response body: producer and consumer share one atomic
    cell and an unbounded channel, and interleave step by step. */
module StreamOutput {

  /** A send is two steps: publish the index, then enqueue. */
  datatype ProducerPc = Ready | Published(generated: bool)

  /** Consuming a frame is two steps: take it from the channel, then load the cell. */
  datatype ConsumerPc = Waiting | Taken

  datatype World = World(
    firstOutput: nat,
    emitted: nat,
    consumed: nat,
    queued: nat,
    receiverAlive: bool,
    producer: ProducerPc,
    consumer: ConsumerPc,
    sent: seq<bool>,
    answers: seq<bool>)

  datatype Action = Publish(generated: bool) | Enqueue | Take | Load | DropReceiver

  /** Nothing emitted and no generated output; `sent` and `answers` record the history: whether each
      enqueued frame carried generated output, and what each consumed frame was answered. */
  function Start(): World {
    World(0, 0, 0, 0, true, Ready, Waiting, [], [])
  }

  predicate Enabled(w: World, a: Action) {
    match a
    case Publish(_) => w.producer.Ready?
    case Enqueue => w.producer.Published?
    case Take => w.receiverAlive && w.queued > 0 && w.consumer.Waiting?
    case Load => w.consumer.Taken?
    case DropReceiver => w.receiverAlive
  }

  function Step(w: World, a: Action): World
    requires Enabled(w, a)
  {
    match a
    case Publish(generated) =>
      w.(producer := Published(generated),
         firstOutput := if generated && w.firstOutput == 0 then w.emitted + 1 else w.firstOutput)
    case Enqueue =>
      if w.receiverAlive then
        w.(producer := Ready, emitted := w.emitted + 1, queued := w.queued + 1,
           sent := w.sent + [w.producer.generated])
      else w.(producer := Ready)
    case Take => w.(queued := w.queued - 1, consumed := w.consumed + 1, consumer := Taken)
    case Load =>
      w.(consumer := Waiting,
         answers := w.answers + [w.firstOutput != 0 && w.consumed >= w.firstOutput])
    case DropReceiver => w.(receiverAlive := false, queued := 0)
  }

  /** Some frame up to and including index `k` carried generated output. */
  ghost predicate GeneratedBy(sent: seq<bool>, k: int) {
    exists j :: 0 <= j <= k && j < |sent| && sent[j]
  }

  /** The published index is that of the first generated frame; it may be one ahead of the frames
      sent, while its send is under way or after that send failed. */
  ghost predicate CellRight(w: World) {
    if w.firstOutput == 0 then
      !GeneratedBy(w.sent, |w.sent| - 1) && (w.producer.Published? ==> !w.producer.generated)
    else if w.firstOutput <= |w.sent| then
      w.sent[w.firstOutput - 1] && !GeneratedBy(w.sent, w.firstOutput - 2)
    else
      && w.firstOutput == |w.sent| + 1 && !GeneratedBy(w.sent, |w.sent| - 1)
      && (w.receiverAlive ==> w.producer == Published(true))
  }

  ghost predicate Counters(w: World) {
    && w.emitted == |w.sent|
    && w.consumed == |w.answers| + (if w.consumer.Taken? then 1 else 0)
    && w.consumed + w.queued <= |w.sent|
  }

  ghost predicate AnswersRight(w: World) {
    forall k :: 0 <= k < |w.answers| ==> (w.answers[k] <==> GeneratedBy(w.sent, k))
  }

  ghost predicate Inv(w: World) {
    CellRight(w) && Counters(w) && AnswersRight(w)
  }

  lemma GeneratedByAppend(sent: seq<bool>, g: bool, k: int)
    requires k < |sent|
    ensures GeneratedBy(sent + [g], k) <==> GeneratedBy(sent, k)
  {
    if j :| 0 <= j <= k && j < |sent| && sent[j] { assert (sent + [g])[j]; }
    if j :| 0 <= j <= k && j < |sent + [g]| && (sent + [g])[j] { assert sent[j]; }
  }

  /** The answer given for the next frame is right, however far ahead the producer is. */
  lemma LoadRight(w: World)
    requires CellRight(w) && Counters(w) && w.consumer.Taken?
    ensures (w.firstOutput != 0 && w.consumed >= w.firstOutput) <==> GeneratedBy(w.sent, w.consumed - 1)
  {
    var k := w.consumed - 1;
    if w.firstOutput != 0 && w.consumed >= w.firstOutput {
      assert w.sent[w.firstOutput - 1];
    }
    if j :| 0 <= j <= k && j < |w.sent| && w.sent[j] {
      assert GeneratedBy(w.sent, |w.sent| - 1);
      assert j <= w.firstOutput - 2 ==> GeneratedBy(w.sent, w.firstOutput - 2);
    }
  }

  lemma EnqueueKeeps(w: World)
    requires Inv(w) && Enabled(w, Enqueue)
    ensures Inv(Step(w, Enqueue))
  {
    if w.receiverAlive {
      var g := w.producer.generated;
      forall k | k < |w.sent| ensures GeneratedBy(w.sent + [g], k) <==> GeneratedBy(w.sent, k) {
        GeneratedByAppend(w.sent, g, k);
      }
      if w.firstOutput == 0 {
        assert !GeneratedBy(w.sent + [g], |w.sent|);
      }
    }
  }

  lemma StepKeeps(w: World, a: Action)
    requires Inv(w) && Enabled(w, a)
    ensures Inv(Step(w, a))
  {
    match a
    case Enqueue => EnqueueKeeps(w);
    case Load => LoadRight(w);
    case Publish(_) =>
    case Take =>
    case DropReceiver =>
  }

  ghost predicate Run(ws: seq<World>, acts: seq<Action>) {
    && |ws| == |acts| + 1 && ws[0] == Start()
    && forall i :: 0 <= i < |acts| ==> Enabled(ws[i], acts[i]) && ws[i + 1] == Step(ws[i], acts[i])
  }

  lemma {:induction false} RunKeeps(ws: seq<World>, acts: seq<Action>, n: nat)
    requires Run(ws, acts) && n < |ws|
    ensures Inv(ws[n])
  {
    if n > 0 {
      RunKeeps(ws, acts, n - 1);
      StepKeeps(ws[n - 1], acts[n - 1]);
    }
  }

  /** In every interleaving the answer for frame `k` is true exactly when frame `k` or an earlier
      one carried generated output, also when a send fails after publishing. */
  lemma FirstOutputTracking(ws: seq<World>, acts: seq<Action>, n: nat, k: nat)
    requires Run(ws, acts) && n < |ws| && k < |ws[n].answers|
    ensures k < |ws[n].sent|
    ensures ws[n].answers[k] <==> GeneratedBy(ws[n].sent, k)
  {
    RunKeeps(ws, acts, n);
  }

  // ---------- the code, between two steps of the other side ----------

  /** A producer and a consumer created together, and the channel between them. */
  class OutputFrames {
    var firstOutput: nat
    var emitted: nat
    var consumed: nat
    var queued: nat
    var receiverAlive: bool
    ghost var sent: seq<bool>
    ghost var answers: seq<bool>

    ghost function View(): World
      reads this
    {
      World(firstOutput, emitted, consumed, queued, receiverAlive, Ready, Waiting, sent, answers)
    }

    constructor ()
      ensures View() == Start() && Inv(View())
    {
      firstOutput, emitted, consumed, queued, receiverAlive := 0, 0, 0, 0, true;
      sent, answers := [], [];
    }

    method Send(generated: bool) returns (ok: bool)
      requires Inv(View())
      modifies this
      ensures View() == Step(Step(old(View()), Publish(generated)), Enqueue) && Inv(View())
      ensures ok == old(receiverAlive) && sent == old(sent) + if ok then [generated] else []
    {
      StepKeeps(View(), Publish(generated));
      StepKeeps(Step(View(), Publish(generated)), Enqueue);
      var next := emitted + 1;
      if generated && firstOutput == 0 {
        firstOutput := next;
      }
      if !receiverAlive {
        return false;
      }
      queued := queued + 1;
      sent := sent + [generated];
      emitted := next;
      ok := true;
    }

    /** To be called once per frame taken from the channel. */
    method OnFrame() returns (started: bool)
      requires Inv(View()) && Enabled(View(), Take)
      modifies this
      ensures View() == Step(Step(old(View()), Take), Load) && Inv(View())
      ensures started <==> GeneratedBy(sent, old(consumed))
    {
      StepKeeps(View(), Take);
      StepKeeps(Step(View(), Take), Load);
      queued := queued - 1;
      consumed := consumed + 1;
      started := firstOutput != 0 && consumed >= firstOutput;
      answers := answers + [started];
      assert answers[|answers| - 1] == started;
    }
  }
}
