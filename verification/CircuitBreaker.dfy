/**
 The circuit breaker of `crates/forge_app/src/resilience.rs`.

 Time is one integer millisecond clock. `Breaker` is the value of the breaker's three
 atomics together with its two settings; the class updates them in place. The history
 theorems say what the three-state machine means: the decision depends only on the
 recorded outcomes and the clock, never on which calls were let through before.
 */
module CircuitBreakers {

  import opened Prelude

  datatype CallOutcome = Success | Failure

  datatype BreakerState = Closed | Open | HalfOpen

  datatype Breaker = Breaker(
    threshold: nat, coolDown: nat, state: BreakerState, failures: nat, openedAt: int)

  function New(threshold: nat, coolDown: nat): Breaker {
    Breaker(Max(threshold, 1), coolDown, Closed, 0, 0)
  }

  // Durations saturate at zero when the clock reads before the opening time.
  predicate CoolDownElapsed(b: Breaker, now: int) {
    Max(now - b.openedAt, 0) >= b.coolDown
  }

  predicate Admits(b: Breaker, now: int) {
    b.state == Open ==> CoolDownElapsed(b, now)
  }

  function AfterAllow(b: Breaker, now: int): Breaker {
    if b.state == Open && CoolDownElapsed(b, now) then b.(state := HalfOpen) else b
  }

  function AfterRecord(b: Breaker, outcome: CallOutcome, now: int): Breaker {
    match outcome
    case Success => b.(failures := 0, state := Closed)
    case Failure =>
      var n := b.failures + 1;
      if n >= b.threshold then b.(failures := n, openedAt := now, state := Open)
      else b.(failures := n)
  }

  class CircuitBreaker {
    const failureThreshold: nat
    const coolDown: nat
    var state: BreakerState
    var consecutiveFailures: nat
    var openedAtMs: int

    function View(): Breaker
      reads this
    {
      Breaker(failureThreshold, coolDown, state, consecutiveFailures, openedAtMs)
    }

    constructor (threshold: nat, coolDown: nat)
      ensures View() == New(threshold, coolDown)
    {
      this.failureThreshold := Max(threshold, 1);
      this.coolDown := coolDown;
      this.state := Closed;
      this.consecutiveFailures := 0;
      this.openedAtMs := 0;
    }

    method Allow(now: int) returns (seen: BreakerState, allowed: bool)
      modifies this
      ensures View() == AfterAllow(old(View()), now)
      ensures allowed == Admits(old(View()), now)
      ensures seen == View().state && (allowed <==> seen != Open)
    {
      match state
      case Closed => seen, allowed := Closed, true;
      case Open =>
        var elapsed := now - openedAtMs;
        if elapsed < 0 {
          elapsed := 0;
        }
        if elapsed >= coolDown {
          state := HalfOpen;
          seen, allowed := HalfOpen, true;
        } else {
          seen, allowed := Open, false;
        }
      case HalfOpen => seen, allowed := HalfOpen, true;
    }

    method Record(outcome: CallOutcome, now: int)
      modifies this
      ensures View() == AfterRecord(old(View()), outcome, now)
    {
      match outcome
      case Success =>
        consecutiveFailures := 0;
        state := Closed;
      case Failure =>
        consecutiveFailures := consecutiveFailures + 1;
        if consecutiveFailures >= failureThreshold {
          TripOpen(now);
        }
    }

    method TripOpen(now: int)
      modifies this
      ensures View() == old(View()).(openedAt := now, state := Open)
    {
      openedAtMs := now;
      state := Open;
    }
  }

  // ----- runs and histories -----

  datatype Event = Allow(t: int) | Record(outcome: CallOutcome, t: int)

  ghost predicate NonDecreasing(es: seq<Event>) {
    forall i, j :: 0 <= i < j < |es| ==> es[i].t <= es[j].t
  }

  function Step(b: Breaker, e: Event): Breaker {
    match e
    case Allow(t) => AfterAllow(b, t)
    case Record(outcome, t) => AfterRecord(b, outcome, t)
  }

  function Run(b: Breaker, es: seq<Event>): Breaker {
    if es == [] then b else Step(Run(b, es[..|es| - 1]), es[|es| - 1])
  }

  // How many failures the recorded outcomes end in.
  function TrailingFailures(es: seq<Event>): nat {
    if es == [] then 0
    else match es[|es| - 1]
      case Allow(_) => TrailingFailures(es[..|es| - 1])
      case Record(Success, _) => 0
      case Record(Failure, _) => TrailingFailures(es[..|es| - 1]) + 1
  }

  // The time of the most recent recorded failure (0 when there is none).
  function LastFailure(es: seq<Event>): int {
    if es == [] then 0
    else match es[|es| - 1]
      case Record(Failure, t) => t
      case _ => LastFailure(es[..|es| - 1])
  }

  // What the breaker is documented to do, read off the history alone.
  predicate CoolingDown(threshold: nat, coolDown: nat, es: seq<Event>, now: int) {
    TrailingFailures(es) >= Max(threshold, 1) && now < LastFailure(es) + coolDown
  }

  // What the three atomics hold after any run, in terms of the history.
  ghost predicate Describes(b: Breaker, es: seq<Event>, threshold: nat, coolDown: nat) {
    && b.threshold == Max(threshold, 1) && b.coolDown == coolDown
    && b.failures == TrailingFailures(es)
    && (b.state == Closed <==> b.failures < b.threshold)
    && (b.state != Closed ==> b.openedAt == LastFailure(es))
    && (b.state != Closed ==> es != [] && b.openedAt <= es[|es| - 1].t)
    && (b.state == HalfOpen ==> es != [] && b.openedAt + coolDown <= es[|es| - 1].t)
  }

  lemma {:induction false} RunDescribesHistory(threshold: nat, coolDown: nat, es: seq<Event>)
    requires NonDecreasing(es)
    ensures Describes(Run(New(threshold, coolDown), es), es, threshold, coolDown)
  {
    if es != [] {
      RunDescribesHistory(threshold, coolDown, es[..|es| - 1]);
    }
  }

  /** Over every run, a call is refused exactly while the recorded outcomes end in a full
      threshold of failures and the cool-down after the last of them has not passed. */
  lemma BreakerRefinesHistory(threshold: nat, coolDown: nat, es: seq<Event>, now: int)
    requires NonDecreasing(es + [Allow(now)])
    ensures Admits(Run(New(threshold, coolDown), es), now)
            <==> !CoolingDown(threshold, coolDown, es, now)
  {
    assert forall i :: 0 <= i < |es| ==> es[i] == (es + [Allow(now)])[i];
    assert es != [] ==> (es + [Allow(now)])[|es| - 1].t <= (es + [Allow(now)])[|es|].t;
    RunDescribesHistory(threshold, coolDown, es);
  }

  // Asking never changes an answer: calls that were only let through leave no trace.
  lemma AllowLeavesHistory(es: seq<Event>, t: int)
    ensures TrailingFailures(es + [Allow(t)]) == TrailingFailures(es)
    ensures LastFailure(es + [Allow(t)]) == LastFailure(es)
  {
    assert (es + [Allow(t)])[..|es|] == es;
  }

  /** A failed call in the half-open state always reopens the breaker for a fresh cool-down,
      and a success in any state closes it. */
  lemma ProbeOutcomeDecides(threshold: nat, coolDown: nat, es: seq<Event>, t: int, now: int)
    requires NonDecreasing(es + [Allow(t)]) && t <= now
    ensures var b := Run(New(threshold, coolDown), es);
            && (b.state == HalfOpen ==>
                  (Admits(Run(New(threshold, coolDown), es + [Record(Failure, t)]), now) <==> t + coolDown <= now))
            && Admits(Run(New(threshold, coolDown), es + [Record(Success, t)]), now)
  {
    assert forall i :: 0 <= i < |es| ==> es[i] == (es + [Allow(t)])[i];
    RunDescribesHistory(threshold, coolDown, es);
    assert (es + [Record(Failure, t)])[..|es|] == es;
    assert (es + [Record(Success, t)])[..|es|] == es;
  }

  // ----- the single-probe promise -----

  // How many of a row of callers are admitted, none of them reporting an outcome yet.
  function Admitted(b: Breaker, times: seq<int>): nat
    decreases |times|
  {
    if times == [] then 0
    else (if Admits(b, times[0]) then 1 else 0) + Admitted(AfterAllow(b, times[0]), times[1..])
  }

  function AtOrAfter(times: seq<int>, from: int): nat {
    if times == [] then 0 else (if from <= times[0] then 1 else 0) + AtOrAfter(times[1..], from)
  }

  ghost predicate Ascending(times: seq<int>) {
    forall i, j :: 0 <= i < j < |times| ==> times[i] <= times[j]
  }

  lemma {:induction false} EveryLateCallerIsAdmitted(b: Breaker, times: seq<int>)
    requires b.state == Open && Ascending(times) && (times != [] ==> b.openedAt <= times[0])
    ensures Admitted(b, times) == AtOrAfter(times, b.openedAt + b.coolDown)
  {
    if times != [] {
      assert forall i :: 0 <= i < |times[1..]| ==> times[1..][i] == times[i + 1];
      if Admits(b, times[0]) {
        HalfOpenAdmitsAll(b.(state := HalfOpen), times[1..], b.openedAt + b.coolDown);
      } else {
        EveryLateCallerIsAdmitted(b, times[1..]);
      }
    }
  }

  lemma {:induction false} HalfOpenAdmitsAll(b: Breaker, times: seq<int>, from: int)
    requires b.state == HalfOpen
    requires forall i :: 0 <= i < |times| ==> from <= times[i]
    ensures Admitted(b, times) == |times| == AtOrAfter(times, from)
  {
    if times != [] {
      HalfOpenAdmitsAll(b, times[1..], from);
    }
  }

  /** The documentation promises one probe after the cool-down. Once a full threshold of
      failures is on record, the code admits every caller that asks when the cool-down is
      over, so the promise holds exactly when at most one caller asks in that time. */
  lemma ProbesAreNotLimited(threshold: nat, coolDown: nat, es: seq<Event>, times: seq<int>)
    requires NonDecreasing(es) && Ascending(times)
    requires es != [] && TrailingFailures(es) >= Max(threshold, 1)
    requires times != [] ==> es[|es| - 1].t <= times[0]
    ensures var probes := Admitted(Run(New(threshold, coolDown), es), times);
            probes == AtOrAfter(times, LastFailure(es) + coolDown)
  {
    RunDescribesHistory(threshold, coolDown, es);
    var b := Run(New(threshold, coolDown), es);
    if b.state == Open {
      EveryLateCallerIsAdmitted(b, times);
    } else {
      HalfOpenAdmitsAll(b, times, LastFailure(es) + coolDown);
    }
  }

  // Two failures at 10 ms, a cool-down of 50 ms, and two callers at 60 ms: both are let through.
  lemma TwoProbesExample()
    ensures Admitted(Run(New(2, 50), [Record(Failure, 10), Record(Failure, 10)]), [60, 60]) == 2
  {
    var es := [Record(Failure, 10), Record(Failure, 10)];
    assert es[..1] == [Record(Failure, 10)];
    assert TrailingFailures(es[..1]) == 1 && TrailingFailures(es) == 2;
    ProbesAreNotLimited(2, 50, es, [60, 60]);
    assert [60, 60][1..] == [60];
  }
}
