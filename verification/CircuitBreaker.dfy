/** The circuit breaker: a class with the source's fields, and laws over whole runs of calls.
    Every call is atomic and happens at one instant. */
module CircuitBreakers {
  import opened Options

  datatype CircuitState = Closed | Open | HalfOpen

  datatype Config = Config(failureThreshold: nat, successThreshold: nat, timeout: nat)

  /** The fields of a breaker. */
  datatype Fields = Fields(
    state: CircuitState,
    failures: nat,
    successes: nat,
    totalFailures: nat,
    totalSuccesses: nat,
    lastFailure: Option<nat>,
    lastChange: nat)

  datatype Call =
    | CanExecute
    | Success
    | Failure
    | TestSuccess
    | TestFailure
    | Reset
    | ForceOpen

  datatype Event = Event(call: Call, at: nat)

  // ---------- the effect of a call ----------

  function Initial(now: nat): Fields {
    Fields(Closed, 0, 0, 0, 0, None, now)
  }

  function Transitioned(f: Fields, target: CircuitState, now: nat): Fields {
    if f.state == target then f
    else
      var g := f.(state := target, lastChange := now, successes := 0);
      if target == Open then g else g.(failures := 0)
  }

  function Checked(c: Config, f: Fields, now: nat): Fields {
    if f.state == Open && now >= f.lastChange + c.timeout then Transitioned(f, HalfOpen, now) else f
  }

  function Succeeded(c: Config, f: Fields, now: nat): Fields {
    var g := f.(totalSuccesses := f.totalSuccesses + 1, failures := 0, successes := f.successes + 1);
    if f.state == HalfOpen && g.successes >= c.successThreshold then Transitioned(g, Closed, now) else g
  }

  function Failed(c: Config, f: Fields, now: nat): Fields {
    var g := f.(totalFailures := f.totalFailures + 1, lastFailure := Some(now),
                successes := 0, failures := f.failures + 1);
    if (f.state == Closed && g.failures >= c.failureThreshold) || f.state == HalfOpen
    then Transitioned(g, Open, now) else g
  }

  function WasReset(f: Fields, now: nat): Fields {
    Transitioned(f, Closed, now).(failures := 0, successes := 0)
  }

  /** Whether a call made in this state counts as an outcome, and which. */
  function Outcome(c: Config, f: Fields, e: Event): Option<bool> {
    match e.call
    case Success => Some(true)
    case Failure => Some(false)
    case TestSuccess => if Checked(c, f, e.at).state == HalfOpen then Some(true) else None
    case TestFailure => if Checked(c, f, e.at).state == HalfOpen then Some(false) else None
    case _ => None
  }

  function Step(c: Config, f: Fields, e: Event): Fields {
    match e.call
    case CanExecute => Checked(c, f, e.at)
    case Success => Succeeded(c, f, e.at)
    case Failure => Failed(c, f, e.at)
    case TestSuccess =>
      var g := Checked(c, f, e.at); if g.state == HalfOpen then Succeeded(c, g, e.at) else g
    case TestFailure =>
      var g := Checked(c, f, e.at); if g.state == HalfOpen then Failed(c, g, e.at) else g
    case Reset => WasReset(f, e.at)
    case ForceOpen => Transitioned(f, Open, e.at)
  }

  /** A request is let through unless the circuit is open after the timeout check. */
  predicate Permits(c: Config, f: Fields, now: nat) {
    Checked(c, f, now).state != Open
  }

  // ---------- runs ----------

  function Init(es: seq<Event>): seq<Event>
    requires es != []
  {
    es[..|es| - 1]
  }

  function Final(es: seq<Event>): Event
    requires es != []
  {
    es[|es| - 1]
  }

  function After(c: Config, f: Fields, es: seq<Event>): Fields {
    if es == [] then f else Step(c, After(c, f, Init(es)), Final(es))
  }

  /** A request is refused exactly while the circuit is open and has not timed out. */
  lemma RefusesExactly(c: Config, f: Fields, now: nat)
    ensures !Permits(c, f, now) <==> f.state == Open && now < f.lastChange + c.timeout
  {
  }

  /** A test outcome is a check of the clock and then, if that leaves the circuit half-open, an outcome. */
  lemma TestsCount(c: Config, f: Fields, now: nat)
    ensures var g := Step(c, f, Event(CanExecute, now));
            var half := g.state == HalfOpen;
            && Step(c, f, Event(TestSuccess, now)) == (if half then Step(c, g, Event(Success, now)) else g)
            && Step(c, f, Event(TestFailure, now)) == (if half then Step(c, g, Event(Failure, now)) else g)
            && Outcome(c, f, Event(TestSuccess, now)) == (if half then Some(true) else None)
            && Outcome(c, f, Event(TestFailure, now)) == (if half then Some(false) else None)
  {
  }

  // ---------- opening ----------

  /** One failure reopens a half-open circuit, now. */
  lemma HalfOpenFailureReopens(c: Config, f: Fields, now: nat)
    requires f.state == HalfOpen
    ensures var g := Step(c, f, Event(Failure, now)); g.state == Open && g.lastChange == now
  {
  }

  /** A forced opening opens from every state, now; an open circuit stays open since it opened. */
  lemma ForceOpenOpens(c: Config, f: Fields, now: nat)
    ensures var g := Step(c, f, Event(ForceOpen, now));
            g.state == Open && g.lastChange == if f.state == Open then f.lastChange else now
  {
  }

  /** The call finds an opening at `since` timed out. */
  predicate Notices(c: Config, since: nat, e: Event) {
    ChecksClock(e.call) && e.at >= since + c.timeout
  }

  /** When the circuit last opened, read off the run: the instant of the last call before which it was
      not open, or that found it timed out and left it open again. */
  function OpenSince(c: Config, f: Fields, es: seq<Event>): nat {
    if es == [] then f.lastChange
    else if After(c, f, Init(es)).state == Open && !Notices(c, OpenSince(c, f, Init(es)), Final(es))
    then OpenSince(c, f, Init(es))
    else Final(es).at
  }

  /** The clock of an open circuit is the instant of its opening. */
  lemma {:induction false} OpenedThen(c: Config, f: Fields, es: seq<Event>)
    ensures After(c, f, es).state == Open ==> After(c, f, es).lastChange == OpenSince(c, f, es)
  {
    if es != [] { OpenedThen(c, f, Init(es)); }
  }

  // ---------- the wait while open ----------

  /** The calls that look at the clock before anything else. */
  predicate ChecksClock(call: Call) {
    call in {CanExecute, TestSuccess, TestFailure}
  }

  /** No call of `es` resets, and none that looks at the clock comes when an opening at `since` has
      timed out. Outcomes and forced openings may come at any time. */
  ghost predicate NoneNotices(c: Config, since: nat, es: seq<Event>) {
    forall i :: 0 <= i < |es| ==> es[i].call != Reset && (ChecksClock(es[i].call) ==> es[i].at < since + c.timeout)
  }

  /** Until a reset, or a call that notices the timeout, nothing moves an open circuit or restarts its
      wait: not even failures and forced openings after the timeout. */
  lemma {:induction false} OpenHolds(c: Config, f: Fields, es: seq<Event>)
    requires f.state == Open && NoneNotices(c, f.lastChange, es)
    ensures After(c, f, es).state == Open && After(c, f, es).lastChange == f.lastChange
  {
    if es != [] { OpenHolds(c, f, Init(es)); }
  }

  /** The circuit is open in `f`, and no call of `es` resets it or notices its timeout. Then a request
      is let in exactly when the full timeout has passed since it opened. */
  lemma OpenWait(c: Config, f: Fields, es: seq<Event>, now: nat)
    requires f.state == Open && NoneNotices(c, f.lastChange, es)
    ensures Permits(c, After(c, f, es), now) <==> now >= f.lastChange + c.timeout
  {
    OpenHolds(c, f, es);
  }

  /** In any run after opening: a permitted request means the timeout has passed or a reset came. */
  lemma NoEarlyRequest(c: Config, f: Fields, es: seq<Event>, now: nat)
    requires f.state == Open && (forall i :: 0 <= i < |es| ==> es[i].at <= now)
    requires Permits(c, After(c, f, es), now)
    ensures now >= f.lastChange + c.timeout || exists i :: 0 <= i < |es| && es[i].call == Reset
  {
    if now < f.lastChange + c.timeout && forall i :: 0 <= i < |es| ==> es[i].call != Reset {
      OpenWait(c, f, es, now);
    }
  }

  // ---------- closing from half-open ----------

  /** Successes recorded since the circuit last became half-open, read off the run alone. */
  function SinceHalfOpen(c: Config, f: Fields, es: seq<Event>): nat {
    if es == [] then 0
    else
      var g := After(c, f, Init(es));
      if After(c, f, es).state != HalfOpen then 0
      else (if g.state == HalfOpen then SinceHalfOpen(c, f, Init(es)) else 0)
           + (if Outcome(c, g, Final(es)) == Some(true) then 1 else 0)
  }

  lemma {:induction false} HalfOpenCounts(c: Config, f: Fields, es: seq<Event>)
    requires f.state != HalfOpen
    ensures After(c, f, es).state == HalfOpen ==>
              && After(c, f, es).successes == SinceHalfOpen(c, f, es)
              && After(c, f, es).failures == 0
  {
    if es != [] { HalfOpenCounts(c, f, Init(es)); }
  }

  /** One call takes the circuit to closed exactly in two ways: a reset, or a success in the
      half-open state that completes the required number since that state was entered. */
  lemma ClosesOnlyAfter(c: Config, f: Fields, es: seq<Event>, e: Event)
    requires f.state != HalfOpen && After(c, f, es).state != Closed
    ensures var g := After(c, f, es);
            var h := if e.call in {TestSuccess, TestFailure} then Checked(c, g, e.at) else g;
            var count := 1 + if g.state == HalfOpen then SinceHalfOpen(c, f, es) else 0;
            Step(c, g, e).state == Closed <==>
              || e.call == Reset
              || (h.state == HalfOpen && Outcome(c, g, e) == Some(true) && count >= c.successThreshold)
  {
    HalfOpenCounts(c, f, es);
  }

  // ---------- failures while closed ----------

  /** Failures since the last success or reset. */
  function TrailingFailures(c: Config, f: Fields, es: seq<Event>): nat {
    if es == [] then 0
    else
      var e, n := Final(es), TrailingFailures(c, f, Init(es));
      if e.call == Reset then 0
      else match Outcome(c, After(c, f, Init(es)), e)
        case Some(true) => 0
        case Some(false) => n + 1
        case None => n
  }

  /** The number of outcomes of one kind in a run. */
  function Outcomes(c: Config, f: Fields, es: seq<Event>, kind: bool): nat {
    if es == [] then 0
    else Outcomes(c, f, Init(es), kind)
         + if Outcome(c, After(c, f, Init(es)), Final(es)) == Some(kind) then 1 else 0
  }

  /** The instant of the last failure. */
  function LastFailure(c: Config, f: Fields, es: seq<Event>): Option<nat> {
    if es == [] then None
    else if Outcome(c, After(c, f, Init(es)), Final(es)) == Some(false) then Some(Final(es).at)
    else LastFailure(c, f, Init(es))
  }

  /** The totals are the outcomes of the whole run, whatever state they came in. */
  lemma {:induction false} TotalsCount(c: Config, now: nat, es: seq<Event>)
    ensures var f, g := Initial(now), After(c, Initial(now), es);
            && g.totalSuccesses == Outcomes(c, f, es, true) && g.totalFailures == Outcomes(c, f, es, false)
            && g.lastFailure == LastFailure(c, f, es)
  {
    if es != [] { TotalsCount(c, now, Init(es)); }
  }

  function Max1(n: nat): nat { if n == 0 then 1 else n }

  /** While closed, the counter is the trailing failure run and stays below the threshold. */
  lemma {:induction false} ClosedCounts(c: Config, now: nat, es: seq<Event>)
    ensures var g := After(c, Initial(now), es);
            g.state == Closed ==>
              && g.failures == TrailingFailures(c, Initial(now), es)
              && g.failures < Max1(c.failureThreshold)
  {
    if es != [] { ClosedCounts(c, now, Init(es)); }
  }

  /** A closed circuit opens on its own exactly when the trailing failures reach the threshold. */
  lemma OpensAtThreshold(c: Config, now: nat, es: seq<Event>, e: Event)
    requires After(c, Initial(now), es).state == Closed && e.call != ForceOpen
    ensures Step(c, After(c, Initial(now), es), e).state == Open <==>
              e.call == Failure && TrailingFailures(c, Initial(now), es) + 1 >= c.failureThreshold
  {
    ClosedCounts(c, now, es);
  }

  // ---------- the code ----------

  /** Nobody forces the circuit open, and its trailing failures stay below the threshold. */
  ghost predicate Healthy(c: Config, now: nat, es: seq<Event>) {
    && (forall i :: 0 <= i < |es| ==> es[i].call != ForceOpen)
    && forall k :: 0 <= k <= |es| ==> TrailingFailures(c, Initial(now), es[..k]) < Max1(c.failureThreshold)
  }

  lemma {:induction false} HealthyStaysClosed(c: Config, now: nat, es: seq<Event>)
    requires Healthy(c, now, es)
    ensures After(c, Initial(now), es).state == Closed
  {
    if es != [] {
      var front := Init(es);
      assert forall k :: 0 <= k <= |front| ==> front[..k] == es[..k];
      HealthyStaysClosed(c, now, front);
      assert es[..|es|] == es && es[..|front|] == front;
      OpensAtThreshold(c, now, front, Final(es));
      ClosedCounts(c, now, front);
    }
  }

  /** Then every request is let in. */
  lemma HealthyPermits(c: Config, now: nat, es: seq<Event>, at: nat)
    requires Healthy(c, now, es)
    ensures Permits(c, After(c, Initial(now), es), at)
  {
    HealthyStaysClosed(c, now, es);
  }

  class CircuitBreaker {
    var state: CircuitState
    var consecutiveFailures: nat
    var consecutiveSuccesses: nat
    var totalFailures: nat
    var totalSuccesses: nat
    var lastFailureTime: Option<nat>
    var lastStateChange: nat
    const config: Config

    function View(): Fields
      reads this
    {
      Fields(state, consecutiveFailures, consecutiveSuccesses, totalFailures, totalSuccesses,
             lastFailureTime, lastStateChange)
    }

    constructor (config: Config, now: nat)
      ensures View() == Initial(now) && this.config == config
    {
      state := Closed;
      consecutiveFailures, consecutiveSuccesses := 0, 0;
      totalFailures, totalSuccesses := 0, 0;
      lastFailureTime := None;
      lastStateChange := now;
      this.config := config;
    }

    method CanExecuteNow(now: nat) returns (ok: bool)
      modifies this
      ensures View() == Step(config, old(View()), Event(CanExecute, now))
      ensures ok == Permits(config, old(View()), now)
      ensures ok <==> old(state) != Open || now >= old(lastStateChange) + config.timeout
    {
      CheckAndUpdateState(now);
      ok := state != Open;
    }

    method RecordSuccess(now: nat)
      modifies this
      ensures View() == Step(config, old(View()), Event(Success, now))
    {
      totalSuccesses := totalSuccesses + 1;
      consecutiveFailures := 0;
      consecutiveSuccesses := consecutiveSuccesses + 1;
      if state == HalfOpen {
        if consecutiveSuccesses >= config.successThreshold {
          TransitionTo(Closed, now);
        }
      }
    }

    method RecordFailure(now: nat)
      modifies this
      ensures View() == Step(config, old(View()), Event(Failure, now))
    {
      totalFailures := totalFailures + 1;
      consecutiveSuccesses := 0;
      consecutiveFailures := consecutiveFailures + 1;
      lastFailureTime := Some(now);
      match state
      case Closed =>
        if consecutiveFailures >= config.failureThreshold {
          TransitionTo(Open, now);
        }
      case HalfOpen => TransitionTo(Open, now);
      case Open =>
    }

    method CheckAndUpdateState(now: nat)
      modifies this
      ensures View() == Checked(config, old(View()), now)
    {
      if state == Open && now >= lastStateChange + config.timeout {
        TransitionTo(HalfOpen, now);
      }
    }

    method TransitionTo(target: CircuitState, now: nat)
      modifies this
      ensures View() == Transitioned(old(View()), target, now)
    {
      if state != target {
        state := target;
        lastStateChange := now;
        match target
        case Closed =>
          consecutiveFailures := 0;
          consecutiveSuccesses := 0;
        case Open =>
          consecutiveSuccesses := 0;
        case HalfOpen =>
          consecutiveFailures := 0;
          consecutiveSuccesses := 0;
      }
    }

    method RecordTestSuccess(now: nat)
      modifies this
      ensures View() == Step(config, old(View()), Event(TestSuccess, now))
    {
      CheckAndUpdateState(now);
      if state == HalfOpen { RecordSuccess(now); }
    }

    method RecordTestFailure(now: nat)
      modifies this
      ensures View() == Step(config, old(View()), Event(TestFailure, now))
    {
      CheckAndUpdateState(now);
      if state == HalfOpen { RecordFailure(now); }
    }

    method ResetNow(now: nat)
      modifies this
      ensures View() == Step(config, old(View()), Event(Reset, now))
    {
      TransitionTo(Closed, now);
      consecutiveFailures := 0;
      consecutiveSuccesses := 0;
    }

    method ForceOpenNow(now: nat)
      modifies this
      ensures View() == Step(config, old(View()), Event(ForceOpen, now))
    {
      TransitionTo(Open, now);
    }
  }
}
