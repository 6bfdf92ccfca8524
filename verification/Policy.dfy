/**
 The policy of `crates/forge_app/src/resilience.rs`: breaker, throttle and bulkhead asked in
 that order. A policy run mixes checks, permits taken and dropped, recorded outcomes and
 Retry-After values; the theorems show that each gate keeps its own guarantee in the mix.
 */
module Policies {

  import opened Prelude
  import B = CircuitBreakers
  import K = Bulkheads
  import T = Throttles

  datatype PreFlight = Allow | BulkheadFull | Throttled(ms: int) | ShortCircuit

  datatype Policy = Policy(breaker: B.Breaker, throttle: T.Throttle, capacity: int, inFlight: int)

  // The constructor's throttle has a burst of one.
  function New(threshold: nat, coolDown: nat, concurrency: nat, rate: nat, startAt: int): Policy {
    Policy(B.New(threshold, coolDown), T.New(rate, 1, startAt), Max(concurrency, 1), 0)
  }

  function CheckResult(p: Policy, now: int): PreFlight
    requires p.throttle.rate > 0
  {
    if !B.Admits(p.breaker, now) then ShortCircuit
    else match T.Decide(p.throttle, now)
      case Wait(ms) => Throttled(ms)
      case Allow => if p.inFlight >= p.capacity then BulkheadFull else Allow
  }

  function AfterCheck(p: Policy, now: int): Policy {
    var asked := p.(breaker := B.AfterAllow(p.breaker, now));
    if B.Admits(p.breaker, now) then asked.(throttle := T.AfterAcquire(p.throttle, now)) else asked
  }

  class ResiliencePolicy {
    const breaker: B.CircuitBreaker
    const bulkhead: K.Bulkhead
    const throttle: T.AdaptiveThrottle

    ghost predicate Valid()
      reads this, bulkhead
    {
      throttle.rate > 0 && 0 < bulkhead.capacity < K.U32 && 0 <= bulkhead.inFlight <= bulkhead.capacity
    }

    function View(): Policy
      reads this, breaker, bulkhead, throttle
    {
      Policy(breaker.View(), throttle.View(), bulkhead.capacity, bulkhead.inFlight)
    }

    constructor (threshold: nat, coolDown: nat, concurrency: nat, rate: nat, startAt: int)
      requires concurrency < K.U32
      ensures Valid() && View() == New(threshold, coolDown, concurrency, rate, startAt)
      ensures fresh(breaker) && fresh(bulkhead) && fresh(throttle)
    {
      breaker := new B.CircuitBreaker(threshold, coolDown);
      bulkhead := new K.Bulkhead(concurrency);
      throttle := new T.AdaptiveThrottle.WithBurst(rate, 1, startAt);
    }

    // The permit the check takes to see whether one is free is dropped before it returns.
    method Check(now: int) returns (r: PreFlight)
      requires Valid()
      modifies breaker, throttle, bulkhead
      ensures Valid()
      ensures View() == AfterCheck(old(View()), now)
      ensures r == CheckResult(old(View()), now)
    {
      var _, allowed := breaker.Allow(now);
      if !allowed {
        return ShortCircuit;
      }
      var decision := throttle.TryAcquire(now);
      if decision.Wait? {
        return Throttled(decision.ms);
      }
      var permit, _ := bulkhead.TryAcquire([]);
      if !permit {
        return BulkheadFull;
      }
      bulkhead.DropGuard();
      return Allow;
    }

    method Record(outcome: B.CallOutcome, now: int, permit: bool)
      requires Valid() && (permit ==> bulkhead.inFlight > 0)
      modifies breaker, bulkhead
      ensures Valid()
      ensures View() == AfterRecord(old(View()), outcome, now, permit)
    {
      breaker.Record(outcome, now);
      if permit {
        bulkhead.DropGuard();
      }
    }
  }

  function AfterRecord(p: Policy, outcome: B.CallOutcome, now: int, permit: bool): Policy {
    p.(breaker := B.AfterRecord(p.breaker, outcome, now), inFlight := p.inFlight - if permit then 1 else 0)
  }

  // ----- runs -----

  // Acquire and Drop are the callers' own use of the bulkhead; Record may hand a permit back.
  datatype Event =
    | Check(t: int)
    | Acquire(t: int)
    | Drop(t: int)
    | Record(outcome: B.CallOutcome, permit: bool, t: int)
    | RetryAfter(retryMs: nat, t: int)

  function Step(p: Policy, e: Event): Policy {
    match e
    case Check(t) => AfterCheck(p, t)
    case Acquire(_) => if p.inFlight < p.capacity then p.(inFlight := p.inFlight + 1) else p
    case Drop(_) => p.(inFlight := p.inFlight - 1)
    case Record(outcome, permit, t) => AfterRecord(p, outcome, t, permit)
    case RetryAfter(r, t) => p.(throttle := T.AfterRetryAfter(p.throttle, r, t))
  }

  function Run(p: Policy, es: seq<Event>): Policy {
    if es == [] then p else Step(Run(p, es[..|es| - 1]), es[|es| - 1])
  }

  function Clock(start: int, es: seq<Event>): int {
    if es == [] then start else es[|es| - 1].t
  }

  predicate Timed(start: int, es: seq<Event>) {
    es != [] ==>
      Timed(start, es[..|es| - 1]) && Clock(start, es[..|es| - 1]) <= es[|es| - 1].t
  }

  // The permits handed out and not yet given back, counted from the events alone.
  function LivePermits(p: Policy, es: seq<Event>): int {
    if es == [] then 0
    else
      var pre := es[..|es| - 1];
      LivePermits(p, pre) + match es[|es| - 1]
        case Acquire(_) => if LivePermits(p, pre) < p.capacity then 1 else 0
        case Drop(_) => -1
        case Record(_, true, _) => -1
        case _ => 0
  }

  // A permit is only given back while one is alive.
  predicate PermitsOwned(p: Policy, es: seq<Event>) {
    es != [] ==>
      var pre, last := es[..|es| - 1], es[|es| - 1];
      && PermitsOwned(p, pre)
      && (last.Drop? || (last.Record? && last.permit) ==> LivePermits(p, pre) > 0)
  }

  // ----- what each gate sees of the run -----

  function BreakerEvents(es: seq<Event>): seq<B.Event> {
    if es == [] then []
    else BreakerEvents(es[..|es| - 1]) + match es[|es| - 1]
      case Check(t) => [B.Event.Allow(t)]
      case Record(outcome, _, t) => [B.Event.Record(outcome, t)]
      case _ => []
  }

  function ThrottleEvents(p: Policy, es: seq<Event>): seq<T.Event> {
    if es == [] then []
    else ThrottleEvents(p, es[..|es| - 1]) + match es[|es| - 1]
      case Check(t) => if B.Admits(Run(p, es[..|es| - 1]).breaker, t) then [T.Event.Acquire(t)] else []
      case RetryAfter(r, t) => [T.Event.RetryAfter(r, t)]
      case _ => []
  }

  // How many checks of the run answered Allow.
  function Cleared(p: Policy, es: seq<Event>): nat
    requires p.throttle.rate > 0
  {
    if es == [] then 0
    else
      var pre, last := es[..|es| - 1], es[|es| - 1];
      GatesSeeTheirEvents(p, pre);
      Cleared(p, pre) + if last.Check? && CheckResult(Run(p, pre), last.t) == Allow then 1 else 0
  }

  /** The mix is no more than the three gates side by side: each gate ends as its own run over
      its own events would leave it. */
  lemma {:induction false} GatesSeeTheirEvents(p: Policy, es: seq<Event>)
    ensures Run(p, es).breaker == B.Run(p.breaker, BreakerEvents(es))
    ensures Run(p, es).throttle == T.Run(p.throttle, ThrottleEvents(p, es))
    ensures Run(p, es).throttle.rate == p.throttle.rate
    ensures Run(p, es).capacity == p.capacity
  {
    if es != [] {
      var pre, last := es[..|es| - 1], es[|es| - 1];
      GatesSeeTheirEvents(p, pre);
      var bs, ts := BreakerEvents(pre), ThrottleEvents(p, pre);
      assert bs + [] == bs && ts + [] == ts;
      match last
      case Check(t) =>
        BreakerRunSnoc(p.breaker, bs, B.Event.Allow(t));
        ThrottleRunSnoc(p.throttle, ts, T.Event.Acquire(t));
      case Record(outcome, _, t) => BreakerRunSnoc(p.breaker, bs, B.Event.Record(outcome, t));
      case RetryAfter(r, t) => ThrottleRunSnoc(p.throttle, ts, T.Event.RetryAfter(r, t));
      case _ =>
    }
  }

  lemma BreakerRunSnoc(b: B.Breaker, es: seq<B.Event>, e: B.Event)
    ensures B.Run(b, es + [e]) == B.Step(B.Run(b, es), e)
  {
    assert (es + [e])[..|es|] == es;
  }

  lemma ThrottleRunSnoc(s: T.Throttle, es: seq<T.Event>, e: T.Event)
    ensures T.Run(s, es + [e]) == T.Step(T.Run(s, es), e)
  {
    assert (es + [e])[..|es|] == es;
  }

  lemma {:induction false} ThrottleClock(p: Policy, start: int, es: seq<Event>)
    requires Timed(start, es)
    ensures start <= Clock(start, es)
    ensures T.Timed(start, ThrottleEvents(p, es)) && T.Clock(start, ThrottleEvents(p, es)) <= Clock(start, es)
  {
    if es != [] {
      var pre := es[..|es| - 1];
      ThrottleClock(p, start, pre);
      var ts := ThrottleEvents(p, pre);
      assert ts + [] == ts;
      match es[|es| - 1]
      case Check(t) => TimedSnoc(start, ts, T.Event.Acquire(t));
      case RetryAfter(r, t) => TimedSnoc(start, ts, T.Event.RetryAfter(r, t));
      case _ =>
    }
  }

  lemma TimedSnoc(start: int, es: seq<T.Event>, e: T.Event)
    ensures T.Timed(start, es + [e]) <==> T.Timed(start, es) && T.Clock(start, es) <= e.t
    ensures T.Clock(start, es + [e]) == e.t
  {
    assert (es + [e])[..|es|] == es;
  }

  lemma {:induction false} BreakerClock(start: int, es: seq<Event>)
    requires Timed(start, es)
    ensures start <= Clock(start, es)
    ensures B.NonDecreasing(BreakerEvents(es))
    ensures forall k :: 0 <= k < |BreakerEvents(es)| ==> BreakerEvents(es)[k].t <= Clock(start, es)
  {
    if es != [] {
      BreakerClock(start, es[..|es| - 1]);
    }
  }

  /** Capacity over every run: the counter is the number of live permits, within capacity, and
      a check leaves it as it found it. */
  lemma {:induction false} CapacityHolds(p: Policy, es: seq<Event>)
    requires p.inFlight == 0 <= p.capacity && PermitsOwned(p, es)
    ensures 0 <= Run(p, es).inFlight == LivePermits(p, es) <= p.capacity == Run(p, es).capacity
    ensures forall t :: AfterCheck(Run(p, es), t).inFlight == Run(p, es).inFlight
  {
    if es != [] {
      CapacityHolds(p, es[..|es| - 1]);
    }
  }

  /** What a check answers, in every run: ShortCircuit exactly while the recorded outcomes have the
      breaker cooling down; otherwise Throttled exactly when there is no whole token; otherwise
      BulkheadFull exactly when every permit is out; and Allow when none of these holds. */
  lemma AllowMeansAllGatesOpen(
    threshold: nat, coolDown: nat, concurrency: nat, rate: nat, startAt: int, es: seq<Event>, now: int)
    requires Timed(startAt, es) && Clock(startAt, es) <= now
    requires PermitsOwned(New(threshold, coolDown, concurrency, rate, startAt), es)
    ensures var p := New(threshold, coolDown, concurrency, rate, startAt);
            var before := Run(p, es);
            var cooling := B.CoolingDown(threshold, coolDown, BreakerEvents(es), now);
            var token := T.Available(before.throttle, now) >= 1000;
            var free := LivePermits(p, es) < Max(concurrency, 1);
            && before.throttle.rate == Max(rate, 1)
            && (CheckResult(before, now) == ShortCircuit <==> cooling)
            && (CheckResult(before, now).Throttled? <==> !cooling && !token)
            && (CheckResult(before, now) == BulkheadFull <==> !cooling && token && !free)
            && (CheckResult(before, now) == Allow <==> !cooling && token && free)
  {
    var p := New(threshold, coolDown, concurrency, rate, startAt);
    GatesSeeTheirEvents(p, es);
    BreakerClock(startAt, es);
    CapacityHolds(p, es);
    B.BreakerRefinesHistory(threshold, coolDown, BreakerEvents(es), now);
  }

  /** The wait of a throttled check is the least that earns what is missing from the token. */
  lemma ThrottledWaitIsLeast(p: Policy, now: int, ms: int)
    requires p.throttle.rate > 0 && CheckResult(p, now).Throttled?
    ensures CheckResult(p, now).ms <= ms <==> 1000 - T.Available(p.throttle, now) <= p.throttle.rate * ms
  {
    T.WaitIsLeast(p.throttle.rate, 1000 - T.Available(p.throttle, now), ms);
  }

  /** The first check of a new policy is cleared. */
  lemma FreshPolicyClears(threshold: nat, coolDown: nat, concurrency: nat, rate: nat, startAt: int, now: int)
    requires startAt <= now
    ensures var p := New(threshold, coolDown, concurrency, rate, startAt);
            p.throttle.rate == Max(rate, 1) && CheckResult(p, now) == Allow
  {
    T.FreshBurst(rate, 1, startAt, [], now);
  }

  /** The rate bound survives the mix: checks cleared in a window of any run number at most
      one plus rate times the window. */
  lemma ClearedAreBounded(
    threshold: nat, coolDown: nat, concurrency: nat, rate: nat, startAt: int,
    pre: seq<Event>, window: seq<Event>, a: int, b: int)
    requires Timed(startAt, pre + window) && Timed(a, window) && Clock(a, window) <= b
    ensures var p := Run(New(threshold, coolDown, concurrency, rate, startAt), pre);
            && p.throttle.rate == Max(rate, 1)
            && 1000 * Cleared(p, window) <= 1000 + Max(rate, 1) * (b - a)
  {
    var start := New(threshold, coolDown, concurrency, rate, startAt);
    var p := Run(start, pre);
    GatesSeeTheirEvents(start, pre);
    SplitTimed(startAt, pre, window);
    ThrottleClock(start, startAt, pre);
    T.CreditBound(start.throttle, ThrottleEvents(start, pre));
    ThrottleClock(p, Clock(startAt, pre), window);
    ThrottleClock(p, a, window);
    LaterStart(p.throttle.lastRefillMs, Clock(startAt, pre), ThrottleEvents(p, window));
    ClearedAreAllowed(p, window);
    assert [] + ThrottleEvents(p, window) == ThrottleEvents(p, window);
    T.WindowBound(p.throttle, [], ThrottleEvents(p, window), a, b);
  }

  lemma {:induction false} SplitTimed(start: int, es: seq<Event>, fs: seq<Event>)
    requires Timed(start, es + fs)
    ensures Timed(start, es) && Timed(Clock(start, es), fs)
  {
    if fs == [] {
      assert es + fs == es;
    } else {
      assert (es + fs)[..|es + fs| - 1] == es + fs[..|fs| - 1];
      SplitTimed(start, es, fs[..|fs| - 1]);
    }
  }

  lemma {:induction false} LaterStart(early: int, late: int, es: seq<T.Event>)
    requires early <= late && T.Timed(late, es)
    ensures T.Timed(early, es)
  {
    if es != [] {
      LaterStart(early, late, es[..|es| - 1]);
    }
  }

  lemma {:induction false} ClearedAreAllowed(p: Policy, es: seq<Event>)
    requires p.throttle.rate > 0
    ensures Cleared(p, es) <= T.Allowed(p.throttle, ThrottleEvents(p, es))
  {
    if es != [] {
      var pre := es[..|es| - 1];
      ClearedAreAllowed(p, pre);
      GatesSeeTheirEvents(p, pre);
      var ts := ThrottleEvents(p, pre);
      assert ts + [] == ts;
      match es[|es| - 1]
      case Check(t) => AllowedSnoc(p.throttle, ts, T.Event.Acquire(t));
      case RetryAfter(r, t) => AllowedSnoc(p.throttle, ts, T.Event.RetryAfter(r, t));
      case _ =>
    }
  }

  lemma AllowedSnoc(s: T.Throttle, es: seq<T.Event>, e: T.Event)
    requires s.rate > 0
    ensures T.Run(s, es).rate == s.rate
    ensures T.Allowed(s, es + [e])
            == T.Allowed(s, es) + if e.Acquire? && T.Decide(T.Run(s, es), e.t) == T.Allow then 1 else 0
  {
    T.RunKeepsSettings(s, es);
    assert (es + [e])[..|es|] == es;
  }

  /** So does a Retry-After: with the policy's burst of one, no check of any mix that follows is
      cleared before it has passed. */
  lemma ClearedWaitsOutRetryAfter(
    threshold: nat, coolDown: nat, concurrency: nat, rate: nat, startAt: int,
    pre: seq<Event>, retryMs: nat, at: int, es: seq<Event>, now: int)
    requires Timed(startAt, pre) && Timed(at, es) && Clock(at, es) <= now
    ensures var told := Step(Run(New(threshold, coolDown, concurrency, rate, startAt), pre), RetryAfter(retryMs, at));
            && Run(told, es).throttle.rate == Max(rate, 1)
            && (CheckResult(Run(told, es), now) == Allow ==> at + retryMs <= now)
  {
    var start := New(threshold, coolDown, concurrency, rate, startAt);
    var p := Run(start, pre);
    var told := Step(p, RetryAfter(retryMs, at));
    GatesSeeTheirEvents(start, pre);
    ThrottleClock(start, startAt, pre);
    T.CreditBound(start.throttle, ThrottleEvents(start, pre));
    GatesSeeTheirEvents(told, es);
    ThrottleClock(told, at, es);
    T.RetryAfterDelays(p.throttle, retryMs, at, ThrottleEvents(told, es), now);
  }
}
