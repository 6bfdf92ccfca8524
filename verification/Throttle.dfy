/**
 The adaptive throttle of `crates/forge_app/src/resilience.rs`: a token bucket counted in
 thousandths of a token. A caller that is told to wait is charged a token all the same, so
 the balance may go below zero; a Retry-After value is withdrawn as a further overdraft.

 Integers are unbounded; the source's 64-bit saturation is outside the model. Each call is one
 step: the source's loads and stores within a call are not interleaved with another call's.
 */
module Throttles {

  import opened Prelude

  datatype Decision = Allow | Wait(ms: int)

  datatype Throttle = Throttle(rate: int, burstMilli: int, lastRefillMs: int, tokensMilli: int)

  function New(rate: nat, burst: nat, startAt: int): Throttle {
    var burstMilli := Max(burst, 1) * 1000;
    Throttle(Max(rate, 1), burstMilli, startAt, burstMilli)
  }

  // The balance a caller finds at `now`, capped at the burst.
  function Available(s: Throttle, now: int): int {
    Min(s.tokensMilli + Max(now - s.lastRefillMs, 0) * s.rate, s.burstMilli)
  }

  function WaitFor(rate: int, missing: int): int
    requires rate > 0
  {
    (missing + rate - 1) / rate
  }

  function Decide(s: Throttle, now: int): Decision
    requires s.rate > 0
  {
    var updated := Available(s, now);
    if updated >= 1000 then Allow else Wait(WaitFor(s.rate, 1000 - updated))
  }

  function AfterAcquire(s: Throttle, now: int): Throttle {
    s.(lastRefillMs := now, tokensMilli := Available(s, now) - 1000)
  }

  function AfterRetryAfter(s: Throttle, retryMs: nat, now: int): Throttle {
    s.(lastRefillMs := now, tokensMilli := s.tokensMilli - retryMs * s.rate)
  }

  class AdaptiveThrottle {
    const rate: int
    const burstMilli: int
    var lastRefillMs: int
    var tokensMilli: int

    function View(): Throttle
      reads this
    {
      Throttle(rate, burstMilli, lastRefillMs, tokensMilli)
    }

    constructor WithBurst(rate: nat, burst: nat, startAt: int)
      ensures View() == New(rate, burst, startAt)
    {
      this.rate := Max(rate, 1);
      this.burstMilli := Max(burst, 1) * 1000;
      this.lastRefillMs := startAt;
      this.tokensMilli := Max(burst, 1) * 1000;
    }

    method RecordRetryAfter(retryMs: nat, now: int)
      modifies this
      ensures View() == AfterRetryAfter(old(View()), retryMs, now)
    {
      tokensMilli := tokensMilli - retryMs * rate;
      lastRefillMs := now;
    }

    method TryAcquire(now: int) returns (d: Decision)
      requires rate > 0
      modifies this
      ensures View() == AfterAcquire(old(View()), now)
      ensures d == Decide(old(View()), now)
    {
      var elapsed := now - lastRefillMs;
      if elapsed < 0 {
        elapsed := 0;
      }
      var updated := tokensMilli + elapsed * rate;
      if updated > burstMilli {
        updated := burstMilli;
      }
      lastRefillMs := now;
      tokensMilli := updated - 1000;
      if updated >= 1000 {
        d := Allow;
      } else {
        d := Wait((1000 - updated + rate - 1) / rate);
      }
    }
  }

  // ----- the returned wait -----

  /** The wait is the least number of milliseconds that earns the missing amount. */
  lemma WaitIsLeast(rate: int, missing: int, ms: int)
    requires rate > 0
    ensures WaitFor(rate, missing) <= ms <==> missing <= rate * ms
  {
    var w := WaitFor(rate, missing);
    var r := (missing + rate - 1) % rate;
    assert missing + rate - 1 == rate * w + r && 0 <= r < rate;
    if w <= ms {
      MulMono(rate, w, ms);
    } else {
      MulMono(rate, ms + 1, w);
      assert rate * (ms + 1) == rate * ms + rate;
    }
  }

  lemma MulMono(k: int, a: int, b: int)
    requires 0 <= k && a <= b
    ensures k * a <= k * b
  {
    assert k * b - k * a == k * (b - a);
  }

  // ----- runs -----

  datatype Event = Acquire(t: int) | RetryAfter(retryMs: nat, t: int)

  // The clock after the events, which was at `start` before them.
  function Clock(start: int, es: seq<Event>): int {
    if es == [] then start else es[|es| - 1].t
  }

  // The events are on a non-decreasing clock that was at `start` before them.
  predicate Timed(start: int, es: seq<Event>) {
    es != [] ==>
      Timed(start, es[..|es| - 1]) && Clock(start, es[..|es| - 1]) <= es[|es| - 1].t
  }

  ghost predicate Balanced(s: Throttle) {
    s.rate > 0 && s.burstMilli >= 1000 && s.tokensMilli <= s.burstMilli
  }

  function Step(s: Throttle, e: Event): Throttle {
    match e
    case Acquire(t) => AfterAcquire(s, t)
    case RetryAfter(r, t) => AfterRetryAfter(s, r, t)
  }

  function Run(s: Throttle, es: seq<Event>): Throttle {
    if es == [] then s else Step(Run(s, es[..|es| - 1]), es[|es| - 1])
  }

  function Acquires(es: seq<Event>): nat {
    if es == [] then 0 else Acquires(es[..|es| - 1]) + if es[|es| - 1].Acquire? then 1 else 0
  }

  // How many of the run's calls were told to go ahead.
  function Allowed(s: Throttle, es: seq<Event>): nat
    requires s.rate > 0
  {
    if es == [] then 0
    else
      var pre, last := es[..|es| - 1], es[|es| - 1];
      RunKeepsSettings(s, pre);
      Allowed(s, pre) + if last.Acquire? && Decide(Run(s, pre), last.t) == Allow then 1 else 0
  }

  lemma {:induction false} RunKeepsSettings(s: Throttle, es: seq<Event>)
    ensures Run(s, es).rate == s.rate && Run(s, es).burstMilli == s.burstMilli
  {
    if es != [] {
      RunKeepsSettings(s, es[..|es| - 1]);
    }
  }

  // Every millisecond earns `rate`, every call costs a whole token.
  lemma {:induction false} CreditBound(s: Throttle, es: seq<Event>)
    requires Balanced(s) && Timed(s.lastRefillMs, es)
    ensures var r := Run(s, es);
            && Balanced(r) && r.rate == s.rate && r.burstMilli == s.burstMilli
            && r.lastRefillMs == Clock(s.lastRefillMs, es) >= s.lastRefillMs
            && r.tokensMilli + 1000 * Acquires(es) <= s.tokensMilli + s.rate * (r.lastRefillMs - s.lastRefillMs)
  {
    if es != [] {
      var pre, last := es[..|es| - 1], es[|es| - 1];
      CreditBound(s, pre);
      var p := Run(s, pre);
      Distribute(s.rate, s.lastRefillMs, p.lastRefillMs, last.t);
      if last.RetryAfter? {
        MulMono(s.rate, 0, last.retryMs);
        MulMono(s.rate, 0, last.t - p.lastRefillMs);
      }
    }
  }

  lemma Distribute(k: int, a: int, b: int, c: int)
    ensures k * (c - a) == k * (b - a) + k * (c - b)
    ensures k * (c - b) == (c - b) * k
  {
  }

  // A run splits anywhere, and its second part starts from a balanced bucket.
  lemma {:induction false} SplitRun(s: Throttle, es: seq<Event>, fs: seq<Event>)
    requires Balanced(s) && Timed(s.lastRefillMs, es + fs)
    ensures Timed(s.lastRefillMs, es)
    ensures var mid := Run(s, es);
            && Balanced(mid) && mid.rate == s.rate && mid.burstMilli == s.burstMilli
            && mid.lastRefillMs == Clock(s.lastRefillMs, es)
            && Timed(mid.lastRefillMs, fs)
            && Run(s, es + fs) == Run(mid, fs)
            && Clock(s.lastRefillMs, es + fs) == Clock(mid.lastRefillMs, fs)
  {
    if fs == [] {
      assert es + fs == es;
      CreditBound(s, es);
    } else {
      assert (es + fs)[..|es + fs| - 1] == es + fs[..|fs| - 1];
      SplitRun(s, es, fs[..|fs| - 1]);
    }
  }

  // What a call at `now` finds, given a call at `first` and the events `between` them.
  lemma FoundAfter(s: Throttle, first: int, between: seq<Event>, now: int)
    requires Balanced(s) && s.lastRefillMs <= first && Timed(first, between) && Clock(first, between) <= now
    ensures var found := Available(Run(AfterAcquire(s, first), between), now);
            found + 1000 * (Acquires(between) + 1) <= s.burstMilli + s.rate * (now - first)
  {
    var after := AfterAcquire(s, first);
    CreditBound(after, between);
    Distribute(s.rate, first, Run(after, between).lastRefillMs, now);
  }

  // By the time a call is told to go ahead, the missing part of its token is earned.
  lemma DecisionPays(s: Throttle, now: int, first: int)
    requires Balanced(s)
    ensures 1000 + s.rate * (now - first) <= Available(s, now) + s.rate * (GoAhead(s, now) - first)
  {
    var d := Decide(s, now);
    if d.Wait? {
      WaitIsLeast(s.rate, 1000 - Available(s, now), d.ms);
      Distribute(s.rate, first, now, now + d.ms);
    }
  }

  // The time a call at `now` is told to go ahead at.
  function GoAhead(s: Throttle, now: int): int
    requires s.rate > 0
  {
    var d := Decide(s, now);
    now + if d.Wait? then d.ms else 0
  }

  lemma TwoCallsBound(s: Throttle, pre: seq<Event>, first: int, between: seq<Event>, now: int)
    requires Balanced(s)
    requires Timed(s.lastRefillMs, pre + [Acquire(first)] + between + [Acquire(now)])
    ensures var before := Run(s, pre + [Acquire(first)] + between);
            && before.rate == s.rate
            && 1000 * (Acquires(between) + 2) <= s.burstMilli + s.rate * (GoAhead(before, now) - first)
  {
    SplitRun(s, pre + [Acquire(first)] + between, [Acquire(now)]);
    SplitRun(s, pre + [Acquire(first)], between);
    SplitRun(s, pre, [Acquire(first)]);
    assert [Acquire(now)][..0] == [] && [Acquire(first)][..0] == [];
    FoundAfter(Run(s, pre), first, between, now);
    DecisionPays(Run(s, pre + [Acquire(first)] + between), now, first);
  }

  lemma OneCallBound(s: Throttle, pre: seq<Event>, now: int)
    requires Balanced(s) && Timed(s.lastRefillMs, pre + [Acquire(now)])
    ensures var before := Run(s, pre);
            && before.rate == s.rate
            && 1000 <= s.burstMilli + s.rate * (GoAhead(before, now) - now)
  {
    SplitRun(s, pre, [Acquire(now)]);
    DecisionPays(Run(s, pre), now, now);
  }

  /** The rate bound, over every run with any Retry-After withdrawals in it: the calls of any
      stretch that begins and ends with one, be it one and the same, together cost no more than
      the burst and what is earned from the first of them to the time the last is told to go
      ahead at. */
  lemma RateBound(s: Throttle, pre: seq<Event>, es: seq<Event>)
    requires Balanced(s) && Timed(s.lastRefillMs, pre + es)
    requires es != [] && es[0].Acquire? && es[|es| - 1].Acquire?
    ensures var before, last := Run(s, pre + es[..|es| - 1]), es[|es| - 1];
            && before.rate == s.rate
            && 1000 * Acquires(es) <= s.burstMilli + s.rate * (GoAhead(before, last.t) - es[0].t)
  {
    var n := |es| - 1;
    if n == 0 {
      assert es == [Acquire(es[0].t)] && es[..0] == [] && pre + [] == pre;
      OneCallBound(s, pre, es[0].t);
    } else {
      var between := es[1..n];
      assert pre + es == pre + [Acquire(es[0].t)] + between + [Acquire(es[n].t)];
      assert pre + es[..n] == pre + [Acquire(es[0].t)] + between;
      TwoCallsBound(s, pre, es[0].t, between, es[n].t);
      CountEnds(es);
    }
  }

  lemma CountEnds(es: seq<Event>)
    requires |es| >= 2 && es[0].Acquire? && es[|es| - 1].Acquire?
    ensures Acquires(es) == Acquires(es[1..|es| - 1]) + 2
  {
    DropFirst(es[..|es| - 1]);
    assert es[..|es| - 1][1..] == es[1..|es| - 1];
  }

  lemma {:induction false} DropFirst(es: seq<Event>)
    requires es != [] && es[0].Acquire?
    ensures Acquires(es) == Acquires(es[1..]) + 1
  {
    if |es| > 1 {
      DropFirst(es[..|es| - 1]);
      assert es[1..][..|es| - 2] == es[..|es| - 1][1..];
    } else {
      assert es[..0] == [];
    }
  }

  lemma {:induction false} WindowCredit(s: Throttle, es: seq<Event>, a: int)
    requires Balanced(s) && Timed(s.lastRefillMs, es) && Timed(a, es)
    ensures var r := Run(s, es);
            Allowed(s, es) > 0 ==> r.tokensMilli + 1000 * Allowed(s, es) <= s.burstMilli + s.rate * (r.lastRefillMs - a)
    ensures a <= Clock(a, es)
    ensures 1000 * Allowed(s, es) <= s.burstMilli + s.rate * (Clock(a, es) - a)
  {
    if es != [] {
      var pre, last := es[..|es| - 1], es[|es| - 1];
      WindowCredit(s, pre, a);
      CreditBound(s, pre);
      Distribute(s.rate, a, Clock(a, pre), last.t);
      MulMono(s.rate, 0, last.t - Clock(a, pre));
      MulMono(s.rate, 0, last.t - a);
      if last.RetryAfter? {
        MulMono(s.rate, 0, last.retryMs);
      }
    }
  }

  /** Hence the calls let through in any window of any run never exceed the burst plus rate
      times the window. */
  lemma WindowBound(s: Throttle, pre: seq<Event>, window: seq<Event>, a: int, b: int)
    requires Balanced(s) && Timed(s.lastRefillMs, pre + window)
    requires Timed(a, window) && Clock(a, window) <= b
    ensures Run(s, pre).rate == s.rate > 0
    ensures 1000 * Allowed(Run(s, pre), window) <= s.burstMilli + s.rate * (b - a)
  {
    SplitRun(s, pre, window);
    WindowCredit(Run(s, pre), window, a);
    MulMono(s.rate, Clock(a, window) - a, b - a);
  }

  // ----- what is never refused -----

  predicate OnlyCalls(es: seq<Event>) {
    es != [] ==> OnlyCalls(es[..|es| - 1]) && es[|es| - 1].Acquire?
  }

  // The other side of the conservation law: earnings are lost only to the cap.
  lemma {:induction false} CreditFloor(s: Throttle, es: seq<Event>)
    requires Balanced(s) && Timed(s.lastRefillMs, es) && OnlyCalls(es)
    ensures var r := Run(s, es);
            && r.rate == s.rate && r.burstMilli == s.burstMilli && r.lastRefillMs == Clock(s.lastRefillMs, es)
            && r.tokensMilli + 1000 * |es|
               >= Min(s.burstMilli, s.tokensMilli + s.rate * (r.lastRefillMs - s.lastRefillMs))
  {
    if es != [] {
      var pre, last := es[..|es| - 1], es[|es| - 1];
      CreditFloor(s, pre);
      CreditBound(s, pre);
      var p := Run(s, pre);
      Distribute(s.rate, s.lastRefillMs, p.lastRefillMs, last.t);
      MulMono(s.rate, 0, last.t - p.lastRefillMs);
    }
  }

  /** A new bucket is full: as many calls as the burst are let through whenever they come, and
      when they all come at the start the next is told to wait. */
  lemma FreshBurst(rate: nat, burst: nat, startAt: int, es: seq<Event>, now: int)
    requires Timed(startAt, es) && Clock(startAt, es) <= now && OnlyCalls(es)
    ensures var s := Run(New(rate, burst, startAt), es);
            && s.rate == Max(rate, 1)
            && (|es| < Max(burst, 1) ==> Decide(s, now) == Allow)
            && (|es| >= Max(burst, 1) && now == startAt ==> Decide(s, now) != Allow)
  {
    var start := New(rate, burst, startAt);
    CreditFloor(start, es);
    CreditBound(start, es);
    CallsAreCounted(es);
    var s := Run(start, es);
    MulMono(s.rate, 0, now - s.lastRefillMs);
    MulMono(s.rate, 0, s.lastRefillMs - startAt);
  }

  lemma {:induction false} CallsAreCounted(es: seq<Event>)
    requires OnlyCalls(es)
    ensures Acquires(es) == |es|
  {
    if es != [] {
      CallsAreCounted(es[..|es| - 1]);
    }
  }

  // Each call comes when a whole token has been earned since the one before it.
  predicate Paced(rate: int, start: int, es: seq<Event>) {
    es != [] ==>
      var pre, last := es[..|es| - 1], es[|es| - 1];
      Paced(rate, start, pre) && last.Acquire? && rate * (last.t - Clock(start, pre)) >= 1000
  }

  /** A caller that keeps to the rate is never told to wait, however long it goes on. */
  lemma {:induction false} PacedIsAllowed(s: Throttle, es: seq<Event>)
    requires Balanced(s) && s.tokensMilli >= 0 && Paced(s.rate, s.lastRefillMs, es)
    ensures Allowed(s, es) == |es|
    ensures var r := Run(s, es);
            Balanced(r) && r.tokensMilli >= 0 && r.rate == s.rate && r.lastRefillMs == Clock(s.lastRefillMs, es)
  {
    if es != [] {
      var pre, last := es[..|es| - 1], es[|es| - 1];
      PacedIsAllowed(s, pre);
      var p := Run(s, pre);
      if last.t <= p.lastRefillMs {
        MulMono(s.rate, last.t - p.lastRefillMs, 0);
      }
      Distribute(s.rate, 0, p.lastRefillMs, last.t);
    }
  }

  /** When the first call after a Retry-After goes through: when the balance, less what was
      withdrawn and with what the time since has earned, up to the burst, is a whole token. */
  lemma FirstCallAfterRetryAfter(s: Throttle, retryMs: nat, at: int, now: int)
    requires Balanced(s) && at <= now
    ensures Decide(AfterRetryAfter(s, retryMs, at), now) == Allow <==>
              1000 <= s.tokensMilli - s.rate * retryMs + s.rate * (now - at)
  {
    Distribute(s.rate, 0, at, now);
    Distribute(s.rate, 0, 0, retryMs);
  }

  // ----- Retry-After -----

  /** After a Retry-After of R at time `at`, whatever calls and withdrawals follow, a call is
      let through at t only if rate * (t - at) has earned back rate * R less the burst's
      spare; with a burst of one, never before at + R. */
  lemma RetryAfterDelays(s: Throttle, retryMs: nat, at: int, es: seq<Event>, t: int)
    requires Balanced(s) && Timed(at, es) && Clock(at, es) <= t
    ensures var before := Run(AfterRetryAfter(s, retryMs, at), es);
            && before.rate == s.rate
            && (Decide(before, t) == Allow ==>
                  && s.rate * retryMs - (s.burstMilli - 1000) <= s.rate * (t - at)
                  && (s.burstMilli == 1000 ==> at + retryMs <= t))
  {
    OverdraftAfter(s, retryMs, at, es, t);
    if t < at + retryMs {
      LastMillisecond(s.rate, t - at, retryMs);
    }
  }

  // What any later call can find in the bucket.
  lemma OverdraftAfter(s: Throttle, retryMs: nat, at: int, es: seq<Event>, t: int)
    requires Balanced(s) && Timed(at, es) && Clock(at, es) <= t
    ensures var w := Run(AfterRetryAfter(s, retryMs, at), es);
            && w.rate == s.rate && w.burstMilli == s.burstMilli
            && Available(w, t) <= s.tokensMilli - s.rate * retryMs + s.rate * (t - at)
  {
    var w := AfterRetryAfter(s, retryMs, at);
    MulMono(s.rate, 0, retryMs);
    CreditBound(w, es);
    Distribute(s.rate, at, Clock(at, es), t);
  }

  lemma LastMillisecond(rate: int, elapsed: int, retryMs: int)
    requires rate > 0 && elapsed < retryMs
    ensures rate * elapsed <= rate * retryMs - rate
  {
    MulMono(rate, elapsed, retryMs - 1);
    assert rate * (retryMs - 1) == rate * retryMs - rate;
  }

  // No call that follows the Retry-After goes through before it has passed.
  ghost predicate Honoured(s: Throttle, retryMs: nat, at: int) {
    forall es: seq<Event>, t: int ::
      Timed(at, es) && Clock(at, es) <= t < at + retryMs ==>
        Available(Run(AfterRetryAfter(s, retryMs, at), es), t) < 1000
  }

  /** The promise that a Retry-After is waited out holds exactly when the balance is less than
      one token above what one millisecond earns. With a burst of one it always is. */
  lemma RetryAfterHonouredIff(s: Throttle, retryMs: nat, at: int)
    requires Balanced(s)
    ensures Honoured(s, retryMs, at) <==> retryMs == 0 || s.tokensMilli < 1000 + s.rate
    ensures s.burstMilli == 1000 ==> Honoured(s, retryMs, at)
  {
    if retryMs == 0 || s.tokensMilli < 1000 + s.rate {
      forall es: seq<Event>, t: int | Timed(at, es) && Clock(at, es) <= t < at + retryMs
        ensures Available(Run(AfterRetryAfter(s, retryMs, at), es), t) < 1000
      {
        OverdraftAfter(s, retryMs, at, es, t);
        ClockAdvances(at, es);
        LastMillisecond(s.rate, t - at, retryMs);
      }
    } else {
      EarlyCall(s, retryMs, at);
    }
  }

  lemma {:induction false} ClockAdvances(start: int, es: seq<Event>)
    requires Timed(start, es)
    ensures start <= Clock(start, es)
  {
    if es != [] {
      ClockAdvances(start, es[..|es| - 1]);
    }
  }

  // With more than a token to spare, the call one millisecond early goes through.
  lemma EarlyCall(s: Throttle, retryMs: nat, at: int)
    requires Balanced(s) && retryMs > 0 && s.tokensMilli >= 1000 + s.rate
    ensures !Honoured(s, retryMs, at)
  {
    var w := AfterRetryAfter(s, retryMs, at);
    var es: seq<Event>, t := [], at + retryMs - 1;
    assert Run(w, es) == w && Clock(at, es) == at;
    Distribute(s.rate, at, t, at + retryMs);
    assert Available(Run(w, es), t) >= 1000;
  }

  // ----- waiting as told -----

  /** A refused caller that comes back exactly when told is let through only if the wait earned
      a second token on top of the missing part: the refusal was charged one. */
  lemma RetryOnTimeIff(s: Throttle, now: int)
    requires Balanced(s) && Decide(s, now).Wait?
    ensures var missing := 1000 - Available(s, now);
            var wait := Decide(s, now).ms;
            Decide(AfterAcquire(s, now), now + wait) == Allow <==> missing + 1000 <= s.rate * wait
    ensures s.rate <= 1000 ==> Decide(AfterAcquire(s, now), now + Decide(s, now).ms) != Allow
  {
    var missing := 1000 - Available(s, now);
    var wait := Decide(s, now).ms;
    WaitIsLeast(s.rate, missing, wait - 1);
    WaitIsLeast(s.rate, missing, 0);
    assert s.rate * (wait - 1) == s.rate * wait - s.rate;
  }

  // Rate 5, burst 1 and an empty bucket: told to wait 200 ms, and told so again 200 ms later.
  lemma RetryOnTimeExample()
    ensures Decide(Throttle(5, 1000, 0, 0), 0) == Wait(200)
    ensures AfterAcquire(Throttle(5, 1000, 0, 0), 0) == Throttle(5, 1000, 0, -1000)
    ensures Decide(Throttle(5, 1000, 0, -1000), 200) == Wait(200)
  {
  }
}
