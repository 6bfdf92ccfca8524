/**
 The bulkhead of `crates/forge_app/src/resilience.rs`: a counter taken by a load /
 compare-exchange retry loop and given back by `fetch_sub` when a guard is dropped.

 `State` is shared by any number of threads; a step is one atomic instruction of one of
 them, so a `seq<Step>` is one interleaving. The counter is a 32-bit word that wraps, and
 the safety theorem is what shows that it never does.
 */
module Bulkheads {

  import opened Prelude

  const U32: int := 0x1_0000_0000

  function WrapAdd(x: int): int {
    (x + 1) % U32
  }

  function WrapSub(x: int): int {
    (x - 1) % U32
  }

  // `loaded[t]` is the value thread t read and is about to hand to compare-exchange;
  // `guards` are the permits alive anywhere (a guard may move between threads).
  datatype State = State(capacity: int, inFlight: int, loaded: map<nat, int>, guards: set<nat>)

  datatype Step =
    | Load(t: nat)
    | Cas(t: nat, guard: nat)
    | Drop(t: nat, guard: nat)

  ghost predicate Init(s: State) {
    0 < s.capacity < U32 && s.inFlight == 0 && s.loaded == map[] && s.guards == {}
  }

  // Inside try_acquire a thread can only retry its compare-exchange.
  predicate Enabled(s: State, step: Step) {
    match step
    case Load(t) => t !in s.loaded
    case Cas(t, guard) => t in s.loaded && guard !in s.guards
    case Drop(t, guard) => t !in s.loaded && guard in s.guards
  }

  // The load that makes try_acquire answer None.
  predicate Refuses(s: State, step: Step) {
    step.Load? && s.inFlight >= s.capacity
  }

  predicate Acquires(s: State, step: Step) {
    step.Cas? && step.t in s.loaded && s.inFlight == s.loaded[step.t]
  }

  predicate FailsCas(s: State, step: Step) {
    step.Cas? && step.t in s.loaded && s.inFlight != s.loaded[step.t]
  }

  predicate Changes(s: State, step: Step) {
    Acquires(s, step) || step.Drop?
  }

  function Next(s: State, step: Step): State
    requires Enabled(s, step)
  {
    match step
    case Load(t) =>
      if s.inFlight >= s.capacity then s else s.(loaded := s.loaded[t := s.inFlight])
    case Cas(t, guard) =>
      var done := s.(loaded := s.loaded - {t});
      if s.inFlight == s.loaded[t]
      then done.(inFlight := WrapAdd(s.loaded[t]), guards := s.guards + {guard})
      else done
    case Drop(t, guard) =>
      s.(inFlight := WrapSub(s.inFlight), guards := s.guards - {guard})
  }

  ghost predicate ValidRun(s: State, steps: seq<Step>)
    decreases |steps|, 0
  {
    steps != [] ==> ValidRun(s, steps[..|steps| - 1]) && Enabled(After(s, steps[..|steps| - 1]), steps[|steps| - 1])
  }

  ghost function After(s: State, steps: seq<Step>): State
    requires ValidRun(s, steps)
    decreases |steps|, 1
  {
    if steps == [] then s else Next(After(s, steps[..|steps| - 1]), steps[|steps| - 1])
  }

  ghost predicate Safe(s: State) {
    && 0 < s.capacity < U32
    && s.inFlight == |s.guards| <= s.capacity
    && forall t :: t in s.loaded ==> 0 <= s.loaded[t] < s.capacity
  }

  lemma LoadIsSafe(s: State, t: nat)
    requires Safe(s) && Enabled(s, Load(t))
    ensures Safe(Next(s, Load(t)))
  {
  }

  lemma CasIsSafe(s: State, t: nat, guard: nat)
    requires Safe(s) && Enabled(s, Cas(t, guard))
    ensures Safe(Next(s, Cas(t, guard)))
  {
    var after := Next(s, Cas(t, guard));
    assert forall u :: u in after.loaded ==> u in s.loaded && after.loaded[u] == s.loaded[u];
  }

  lemma DropIsSafe(s: State, t: nat, guard: nat)
    requires Safe(s) && Enabled(s, Drop(t, guard))
    ensures Safe(Next(s, Drop(t, guard)))
  {
    assert |s.guards - {guard}| == |s.guards| - 1;
  }

  /** Under every interleaving the counter is the number of live guards and never exceeds the
      capacity; in particular a drop never takes it below zero. */
  lemma {:induction false} BulkheadIsSafe(s: State, steps: seq<Step>)
    requires Init(s) && ValidRun(s, steps)
    ensures Safe(After(s, steps)) && After(s, steps).capacity == s.capacity
  {
    if steps != [] {
      var before := After(s, steps[..|steps| - 1]);
      BulkheadIsSafe(s, steps[..|steps| - 1]);
      match steps[|steps| - 1]
      case Load(t) => LoadIsSafe(before, t);
      case Cas(t, guard) => CasIsSafe(before, t, guard);
      case Drop(t, guard) => DropIsSafe(before, t, guard);
    }
  }

  /** No step wraps: taking a permit adds one live guard, dropping one removes it, and a
      refusal is given only while every permit is out. */
  lemma StepsNeverWrap(s: State, steps: seq<Step>, step: Step)
    requires Init(s) && ValidRun(s, steps + [step])
    ensures ValidRun(s, steps)
    ensures var before := After(s, steps);
            var after := After(s, steps + [step]);
            && (Acquires(before, step) ==> after.inFlight == before.inFlight + 1)
            && (step.Drop? ==> 1 <= before.inFlight && after.inFlight == before.inFlight - 1)
            && (!Changes(before, step) ==> after.inFlight == before.inFlight && after.guards == before.guards)
            && (Refuses(before, step) ==> |before.guards| == s.capacity && step.t !in after.loaded)
  {
    assert (steps + [step])[..|steps|] == steps;
    BulkheadIsSafe(s, steps);
    BulkheadIsSafe(s, steps + [step]);
    if step.Drop? {
      var guards := After(s, steps).guards;
      assert |guards - {step.guard}| == |guards| - 1;
    }
  }

  // What a step does, in terms of the live guards.
  predicate DoesIts(before: State, after: State, step: Step) {
    var n := |before.guards|;
    match step
    case Load(t) =>
      && after.guards == before.guards
      && after.loaded == if n < before.capacity then before.loaded[t := n] else before.loaded
    case Cas(t, guard) =>
      && t in before.loaded && after.loaded == before.loaded - {t}
      && after.guards == if before.loaded[t] == n then before.guards + {guard} else before.guards
    case Drop(t, guard) =>
      guard in before.guards && after.guards == before.guards - {guard} && after.loaded == before.loaded
  }

  /** In every interleaving a load goes on exactly while a permit is free, with the number of live
      guards as its value; a compare-exchange adds its guard exactly when that is still their
      number, and is over either way; a drop removes its guard. */
  lemma StepOutcomes(s: State, steps: seq<Step>, step: Step)
    requires Init(s) && ValidRun(s, steps + [step])
    ensures ValidRun(s, steps) && DoesIts(After(s, steps), After(s, steps + [step]), step)
  {
    assert (steps + [step])[..|steps|] == steps;
    BulkheadIsSafe(s, steps);
  }

  // ----- retries -----

  // Failed compare-exchanges of thread t.
  ghost function Failures(s: State, steps: seq<Step>, t: nat): nat
    requires ValidRun(s, steps)
  {
    if steps == [] then 0
    else
      var pre, last := steps[..|steps| - 1], steps[|steps| - 1];
      Failures(s, pre, t) + if last.t == t && FailsCas(After(s, pre), last) then 1 else 0
  }

  // Permits taken and guards dropped by threads other than t.
  ghost function ChangesByOthers(s: State, steps: seq<Step>, t: nat): nat
    requires ValidRun(s, steps)
  {
    if steps == [] then 0
    else
      var pre, last := steps[..|steps| - 1], steps[|steps| - 1];
      ChangesByOthers(s, pre, t) + if last.t != t && Changes(After(s, pre), last) then 1 else 0
  }

  ghost predicate Stale(s: State, t: nat) {
    t in s.loaded && s.loaded[t] != s.inFlight
  }

  /** A thread retries no more often than the other threads make progress: the loop is
      lock-free. */
  lemma {:induction false} RetriesAreBounded(s: State, steps: seq<Step>, t: nat)
    requires Init(s) && ValidRun(s, steps)
    ensures Failures(s, steps, t) + (if Stale(After(s, steps), t) then 1 else 0)
            <= ChangesByOthers(s, steps, t)
  {
    if steps != [] {
      RetriesAreBounded(s, steps[..|steps| - 1], t);
    }
  }

  ghost function AllFailures(s: State, steps: seq<Step>): nat
    requires ValidRun(s, steps)
  {
    if steps == [] then 0
    else
      var pre, last := steps[..|steps| - 1], steps[|steps| - 1];
      AllFailures(s, pre) + if FailsCas(After(s, pre), last) then 1 else 0
  }

  ghost function AllChanges(s: State, steps: seq<Step>): nat
    requires ValidRun(s, steps)
  {
    if steps == [] then 0
    else
      var pre, last := steps[..|steps| - 1], steps[|steps| - 1];
      AllChanges(s, pre) + if Changes(After(s, pre), last) then 1 else 0
  }

  function StaleThreads(s: State, threads: set<nat>): set<nat> {
    set t | t in threads && t in s.loaded && s.loaded[t] != s.inFlight
  }

  /** With n threads, all their retries together are at most n - 1 for every permit taken or
      dropped. */
  lemma {:induction false} AllRetriesAreBounded(s: State, steps: seq<Step>, threads: set<nat>)
    requires Init(s) && ValidRun(s, steps)
    requires threads != {} && OnlyThreads(steps, threads)
    ensures AllFailures(s, steps) + |StaleThreads(After(s, steps), threads)| <= (|threads| - 1) * AllChanges(s, steps)
  {
    if steps == [] {
      assert StaleThreads(s, threads) == {};
    } else {
      var pre, last := steps[..|steps| - 1], steps[|steps| - 1];
      AllRetriesAreBounded(s, pre, threads);
      StepStales(After(s, pre), last, threads);
      OneMore(|threads| - 1, AllChanges(s, pre));
    }
  }

  predicate OnlyThreads(steps: seq<Step>, threads: set<nat>) {
    steps != [] ==> steps[|steps| - 1].t in threads && OnlyThreads(steps[..|steps| - 1], threads)
  }

  lemma OneMore(k: int, c: int)
    ensures k * (c + 1) == k * c + k
  {
  }

  // What one step does to the loads that have gone stale.
  lemma StepStales(s: State, step: Step, threads: set<nat>)
    requires Enabled(s, step) && step.t in threads
    ensures var before, after := StaleThreads(s, threads), StaleThreads(Next(s, step), threads);
            if FailsCas(s, step) then |after| == |before| - 1
            else if Changes(s, step) then |after| <= |threads| - 1
            else |after| <= |before|
  {
    var before, after := StaleThreads(s, threads), StaleThreads(Next(s, step), threads);
    if FailsCas(s, step) {
      assert after == before - {step.t};
    } else if Changes(s, step) {
      Contained(after, threads - {step.t});
    } else {
      Contained(after, before);
    }
  }

  lemma {:induction false} Contained(a: set<nat>, b: set<nat>)
    requires a <= b
    ensures |a| <= |b|
  {
    if a != {} {
      var x :| x in a;
      Contained(a - {x}, b - {x});
    }
  }

  /** A compare-exchange that fails was overtaken: some other thread took or dropped a permit
      between the load and it. */
  lemma FailedCasWasOvertaken(s: State, pre: seq<Step>, mid: seq<Step>, t: nat, guard: nat)
    returns (k: nat)
    requires forall i :: 0 <= i < |mid| ==> mid[i].t != t
    requires ValidRun(s, pre + [Load(t)] + mid + [Cas(t, guard)])
    requires ValidRun(s, pre + [Load(t)] + mid)
    requires FailsCas(After(s, pre + [Load(t)] + mid), Cas(t, guard))
    ensures k < |mid| && mid[k].t != t
    ensures ValidRun(s, pre + [Load(t)] + mid[..k])
    ensures Changes(After(s, pre + [Load(t)] + mid[..k]), mid[k])
  {
    k := Overtaker(s, pre, mid, t);
  }

  lemma {:induction false} Overtaker(s: State, pre: seq<Step>, mid: seq<Step>, t: nat) returns (k: nat)
    requires forall i :: 0 <= i < |mid| ==> mid[i].t != t
    requires ValidRun(s, pre + [Load(t)] + mid)
    ensures Stale(After(s, pre + [Load(t)] + mid), t) ==>
              && k < |mid|
              && ValidRun(s, pre + [Load(t)] + mid[..k])
              && Changes(After(s, pre + [Load(t)] + mid[..k]), mid[k])
    decreases |mid|
  {
    var run := pre + [Load(t)] + mid;
    k := 0;
    if mid == [] {
      assert run[..|run| - 1] == pre && run[|run| - 1] == Load(t);
    } else {
      var shorter := mid[..|mid| - 1];
      assert run[..|run| - 1] == pre + [Load(t)] + shorter;
      if Changes(After(s, pre + [Load(t)] + shorter), mid[|mid| - 1]) {
        k := |mid| - 1;
      } else {
        k := Overtaker(s, pre, shorter, t);
        if k < |shorter| {
          assert mid[..k] == shorter[..k];
        }
      }
    }
  }

  // ----- the retry loop -----

  // The value attempt k loads.
  function Seen(start: int, others: seq<int>, k: nat): int
    requires k <= |others|
  {
    if k == 0 then start else others[k - 1]
  }

  // Attempt k found a free permit and its compare-exchange another value.
  predicate Overtaken(start: int, others: seq<int>, capacity: int, k: nat)
    requires k < |others|
  {
    Seen(start, others, k) < capacity && others[k] != Seen(start, others, k)
  }

  class Bulkhead {
    const capacity: int
    var inFlight: int

    constructor (capacity: int)
      requires 0 <= capacity < U32
      ensures this.capacity == Max(capacity, 1) && inFlight == 0
    {
      this.capacity := Max(capacity, 1);
      this.inFlight := 0;
    }

    /** The loop itself, run against interference: `others[k]` is the value the other threads
        leave in the counter between the load and the compare-exchange of attempt k (after
        the last of them they are quiet). That they leave at most `capacity` is `BulkheadIsSafe`. */
    method TryAcquire(others: seq<int>) returns (ok: bool, attempts: nat)
      requires 0 < capacity < U32 && 0 <= inFlight <= capacity
      requires forall k :: 0 <= k < |others| ==> 0 <= others[k] <= capacity
      modifies this`inFlight
      ensures attempts <= |others|
      ensures ok <==> Seen(old(inFlight), others, attempts) < capacity
      ensures inFlight == if ok then Seen(old(inFlight), others, attempts) + 1 else capacity
      ensures ok && attempts < |others| ==> others[attempts] == Seen(old(inFlight), others, attempts)
      ensures forall k :: 0 <= k < attempts ==> Overtaken(old(inFlight), others, capacity, k)
    {
      attempts := 0;
      ghost var start := inFlight;
      while true
        invariant attempts <= |others|
        invariant inFlight == Seen(start, others, attempts)
        invariant forall k :: 0 <= k < attempts ==> Overtaken(start, others, capacity, k)
        decreases |others| - attempts
      {
        var cur := inFlight;
        if cur >= capacity {
          return false, attempts;
        }
        if attempts < |others| {
          inFlight := others[attempts];
        }
        if inFlight == cur {
          inFlight := WrapAdd(cur);
          return true, attempts;
        }
        attempts := attempts + 1;
      }
    }

    // Dropping a guard; the guard being alive is what makes the counter positive.
    method DropGuard()
      requires 0 < inFlight < U32
      modifies this`inFlight
      ensures inFlight == old(inFlight) - 1
    {
      inFlight := WrapSub(inFlight);
    }
  }
}
