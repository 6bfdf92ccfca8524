/**
 `execute_tool_calls` of `crates/forge_app/src/orch.rs`: task calls run in parallel and
 finish in any order, all others run one after the other, and the two result lists are merged
 back into the order of the calls. The split and the merge test the tool name differently.
 */
module ToolCalls {

  datatype ToolCall = ToolCall(name: string, arguments: string)

  type ToolResult = string

  type Record = (ToolCall, ToolResult)

  datatype Outcome = Done(records: seq<Record>) | Failed | Panicked

  const TASK := "task"

  // U+212A, the only non-ASCII character whose lower case is one of the letters of "task".
  const KELVIN_SIGN: char := '\U{212A}'

  function AsciiLower(c: char): char {
    if 'A' <= c <= 'Z' then (c as int + 32) as char else c
  }

  // Unicode lower-casing as far as a comparison with "task" can tell.
  function UnicodeLower(c: char): char {
    if c == KELVIN_SIGN then 'k' else AsciiLower(c)
  }

  // The merge's test: equal up to ASCII case.
  predicate IsTask(tc: ToolCall) {
    |tc.name| == |TASK| && forall i :: 0 <= i < |TASK| ==> AsciiLower(tc.name[i]) == TASK[i]
  }

  // The split's test: the lower-cased name is "task".
  predicate IsTaskCall(tc: ToolCall) {
    |tc.name| == |TASK| && forall i :: 0 <= i < |TASK| ==> UnicodeLower(tc.name[i]) == TASK[i]
  }

  predicate AgreeBelow(calls: seq<ToolCall>, n: nat)
    requires n <= |calls|
  {
    forall i :: 0 <= i < n ==> IsTask(calls[i]) == IsTaskCall(calls[i])
  }

  predicate Agree(calls: seq<ToolCall>) {
    AgreeBelow(calls, |calls|)
  }

  // What the merge takes for a task: "task" in letters of either case.
  lemma IsTaskIff(tc: ToolCall)
    ensures IsTask(tc) <==>
              && |tc.name| == 4
              && tc.name[0] in {'t', 'T'} && tc.name[1] in {'a', 'A'} && tc.name[2] in {'s', 'S'} && tc.name[3] in {'k', 'K'}
  {
    assert TASK[0] == 't' && TASK[1] == 'a' && TASK[2] == 's' && TASK[3] == 'k';
  }

  // The two tests differ on exactly the names that spell "task" with a Kelvin sign.
  lemma TestsDifferIff(tc: ToolCall)
    ensures IsTask(tc) ==> IsTaskCall(tc)
    ensures IsTask(tc) != IsTaskCall(tc) <==>
              && |tc.name| == 4 && tc.name[3] == KELVIN_SIGN
              && AsciiLower(tc.name[0]) == 't' && AsciiLower(tc.name[1]) == 'a' && AsciiLower(tc.name[2]) == 's'
  {
    assert TASK[0] == 't' && TASK[1] == 'a' && TASK[2] == 's' && TASK[3] == 'k';
  }

  // ----- positions -----

  // The positions below n of the calls on one side of the split, in order.
  function Where(calls: seq<ToolCall>, task: bool, n: nat): seq<nat>
    requires n <= |calls|
  {
    if n == 0 then []
    else Where(calls, task, n - 1) + if IsTaskCall(calls[n - 1]) == task then [n - 1] else []
  }

  // How many of the first n calls the merge sends to one side.
  function Drawn(calls: seq<ToolCall>, task: bool, n: nat): nat
    requires n <= |calls|
  {
    if n == 0 then 0 else Drawn(calls, task, n - 1) + if IsTask(calls[n - 1]) == task then 1 else 0
  }

  lemma {:induction false} WhereFinds(calls: seq<ToolCall>, task: bool, i: nat, n: nat)
    requires i < n <= |calls| && IsTaskCall(calls[i]) == task
    ensures |Where(calls, task, i)| < |Where(calls, task, n)|
    ensures Where(calls, task, n)[|Where(calls, task, i)|] == i
  {
    if i < n - 1 {
      WhereFinds(calls, task, i, n - 1);
    }
  }

  // The merge draws as many task results as there are exactly when the tests agree.
  lemma {:induction false} DrawsMatchIff(calls: seq<ToolCall>, n: nat)
    requires n <= |calls|
    ensures Drawn(calls, true, n) <= |Where(calls, true, n)|
    ensures Drawn(calls, true, n) + Drawn(calls, false, n) == n == |Where(calls, true, n)| + |Where(calls, false, n)|
    ensures Drawn(calls, false, n) == |Where(calls, false, n)| <==> AgreeBelow(calls, n)
  {
    if n > 0 {
      DrawsMatchIff(calls, n - 1);
      DrawsNext(calls, n - 1);
    }
  }

  // One call more: the merge never sends a call to the task side that the split did not.
  lemma DrawsNext(calls: seq<ToolCall>, n: nat)
    requires n < |calls|
    ensures var merged, split := IsTask(calls[n]), IsTaskCall(calls[n]);
            && (merged ==> split)
            && Drawn(calls, true, n + 1) == Drawn(calls, true, n) + (if merged then 1 else 0)
            && Drawn(calls, false, n + 1) == Drawn(calls, false, n) + (if merged then 0 else 1)
            && |Where(calls, true, n + 1)| == |Where(calls, true, n)| + (if split then 1 else 0)
            && |Where(calls, false, n + 1)| == |Where(calls, false, n)| + (if split then 0 else 1)
  {
    TestsDifferIff(calls[n]);
  }

  // ----- the algorithm -----

  // A completion order of n futures.
  ghost predicate IsOrder(order: seq<nat>, n: nat) {
    && |order| == n
    && (forall k :: 0 <= k < n ==> order[k] < n)
    && forall i :: 0 <= i < n ==> i in order
  }

  // Any order in which n parallel calls may finish.
  method Finishing(n: nat) returns (order: seq<nat>)
    ensures IsOrder(order, n)
  {
    order := [];
    var running := Below(n);
    while running != {}
      invariant running <= Below(n)
      invariant |order| + |running| == n
      invariant forall k :: 0 <= k < |order| ==> order[k] < n
      invariant forall i :: 0 <= i < n ==> i in running || i in order
      decreases running
    {
      var i :| i in running;
      running := running - {i};
      order := order + [i];
    }
  }

  function Below(n: nat): (r: set<nat>)
    ensures |r| == n && forall i :: i in r <==> 0 <= i < n
  {
    if n == 0 then {} else Below(n - 1) + {n - 1}
  }

  predicate HookFails(calls: seq<ToolCall>, alive: seq<bool>)
    requires |alive| == |calls|
  {
    exists i :: 0 <= i < |calls| && !IsTaskCall(calls[i]) && !alive[i]
  }

  // What executing the calls comes to: without a hook failure every call is paired with its own
  // result, in order, exactly when the two name tests agree on every call; otherwise the merge
  // runs out of results.
  function Executed(calls: seq<ToolCall>, results: seq<ToolResult>, alive: seq<bool>): Outcome
    requires |results| == |calls| == |alive|
  {
    if HookFails(calls, alive) then Failed
    else if !Agree(calls) then Panicked
    else Done(seq(|calls|, i requires 0 <= i < |calls| => (calls[i], results[i])))
  }

  /** `results[i]` is what executing call i answers, `order` the order in which the parallel
      calls finish, and `alive[i]` whether the notifications and hooks around call i succeed
      (they surround the sequential calls only). The outcome does not depend on `order`. */
  method ExecuteToolCalls(calls: seq<ToolCall>, results: seq<ToolResult>, order: seq<nat>, alive: seq<bool>)
    returns (outcome: Outcome)
    requires |results| == |calls| == |alive|
    requires IsOrder(order, |Where(calls, true, |calls|)|)
    ensures outcome == Executed(calls, results, alive)
    ensures outcome.Failed? <==> exists i :: 0 <= i < |calls| && !IsTaskCall(calls[i]) && !alive[i]
    ensures outcome.Done? ==> Agree(calls)
    ensures outcome.Panicked? ==> !Agree(calls)
    ensures outcome.Done? ==> |outcome.records| == |calls|
    ensures outcome.Done? ==> forall i :: 0 <= i < |calls| ==> outcome.records[i] == (calls[i], results[i])
  {
    var taskCalls, otherCalls := Partition(calls);
    var taskResults := JoinAll(calls, results, taskCalls, order);
    var otherResults: seq<Record> := [];
    for k := 0 to |otherCalls|
      invariant |otherResults| == k
      invariant forall j :: 0 <= j < k ==> alive[otherCalls[j]] && otherResults[j] == (calls[otherCalls[j]], results[otherCalls[j]])
    {
      var i := otherCalls[k];
      if !alive[i] {
        WhereHolds(calls, false, |calls|, k);
        return Failed;
      }
      otherResults := otherResults + [(calls[i], results[i])];
    }
    forall i | 0 <= i < |calls| && !IsTaskCall(calls[i])
      ensures alive[i]
    {
      WhereFinds(calls, false, i, |calls|);
    }
    outcome := Merge(calls, results, taskResults, otherResults);
  }

  lemma {:induction false} WhereHolds(calls: seq<ToolCall>, task: bool, n: nat, k: nat)
    requires n <= |calls| && k < |Where(calls, task, n)|
    ensures Where(calls, task, n)[k] < n && IsTaskCall(calls[Where(calls, task, n)[k]]) == task
  {
    if k < |Where(calls, task, n - 1)| {
      WhereHolds(calls, task, n - 1, k);
    }
  }

  method Partition(calls: seq<ToolCall>) returns (taskCalls: seq<nat>, otherCalls: seq<nat>)
    ensures taskCalls == Where(calls, true, |calls|) && otherCalls == Where(calls, false, |calls|)
    ensures forall k :: 0 <= k < |taskCalls| ==> taskCalls[k] < |calls|
    ensures forall k :: 0 <= k < |otherCalls| ==> otherCalls[k] < |calls|
  {
    taskCalls, otherCalls := [], [];
    for i := 0 to |calls|
      invariant taskCalls == Where(calls, true, i) && otherCalls == Where(calls, false, i)
      invariant forall k :: 0 <= k < |taskCalls| ==> taskCalls[k] < i
      invariant forall k :: 0 <= k < |otherCalls| ==> otherCalls[k] < i
    {
      if IsTaskCall(calls[i]) {
        taskCalls := taskCalls + [i];
      } else {
        otherCalls := otherCalls + [i];
      }
    }
  }

  // Each future fills its own slot when it finishes, so the order of finishing does not show.
  method JoinAll(calls: seq<ToolCall>, results: seq<ToolResult>, taskCalls: seq<nat>, order: seq<nat>)
    returns (records: seq<Record>)
    requires |results| == |calls| && IsOrder(order, |taskCalls|)
    requires forall k :: 0 <= k < |taskCalls| ==> taskCalls[k] < |calls|
    ensures |records| == |taskCalls|
    ensures forall k :: 0 <= k < |taskCalls| ==> records[k] == (calls[taskCalls[k]], results[taskCalls[k]])
  {
    var slots := new ToolResult[|taskCalls|](_ => "");
    for done := 0 to |order|
      invariant forall j :: 0 <= j < done ==> slots[order[j]] == results[taskCalls[order[j]]]
    {
      slots[order[done]] := results[taskCalls[order[done]]];
    }
    records := [];
    for k := 0 to |taskCalls|
      invariant |records| == k
      invariant forall j :: 0 <= j < k ==> records[j] == (calls[taskCalls[j]], results[taskCalls[j]])
    {
      assert k in order;
      records := records + [(calls[taskCalls[k]], slots[k])];
    }
  }

  // The records of one side of the split: its calls with their results, in order.
  ghost predicate IsSide(records: seq<Record>, calls: seq<ToolCall>, results: seq<ToolResult>, task: bool)
    requires |results| == |calls|
  {
    var side := Where(calls, task, |calls|);
    && |records| == |side|
    && forall k :: 0 <= k < |side| ==> side[k] < |calls| && records[k] == (calls[side[k]], results[side[k]])
  }

  // What the merge draws for call i, if there is any result left to draw.
  lemma DrawIsOwn(calls: seq<ToolCall>, results: seq<ToolResult>, side: seq<Record>, task: bool, i: nat)
    requires |results| == |calls| && i < |calls| && IsTask(calls[i]) == task
    requires IsSide(side, calls, results, task)
    ensures Agree(calls) ==> Drawn(calls, task, i) < |side| && side[Drawn(calls, task, i)] == (calls[i], results[i])
  {
    if Agree(calls) {
      WhereFinds(calls, task, i, |calls|);
      DrawnWhere(calls, task, i);
    }
  }

  lemma {:induction false} DrawnWhere(calls: seq<ToolCall>, task: bool, n: nat)
    requires n <= |calls| && Agree(calls)
    ensures Drawn(calls, task, n) == |Where(calls, task, n)|
  {
    if n > 0 {
      DrawnWhere(calls, task, n - 1);
    }
  }

  // All draws succeed only when the tests agree.
  lemma AllDrawn(calls: seq<ToolCall>)
    requires Drawn(calls, false, |calls|) <= |Where(calls, false, |calls|)|
    ensures Agree(calls)
  {
    DrawsMatchIff(calls, |calls|);
  }

  method Merge(calls: seq<ToolCall>, results: seq<ToolResult>, taskResults: seq<Record>, otherResults: seq<Record>)
    returns (outcome: Outcome)
    requires |results| == |calls|
    requires IsSide(taskResults, calls, results, true) && IsSide(otherResults, calls, results, false)
    ensures !outcome.Failed? && (outcome.Done? <==> Agree(calls))
    ensures outcome.Done? ==> |outcome.records| == |calls|
    ensures outcome.Done? ==> forall i :: 0 <= i < |calls| ==> outcome.records[i] == (calls[i], results[i])
  {
    var records: seq<Record> := [];
    var nextTask, nextOther := 0, 0;
    for i := 0 to |calls|
      invariant |records| == i
      invariant nextTask == Drawn(calls, true, i) && nextOther == Drawn(calls, false, i) <= |otherResults|
      invariant Agree(calls) ==> forall k :: 0 <= k < i ==> records[k] == (calls[k], results[k])
    {
      if IsTask(calls[i]) {
        DrawIsOwn(calls, results, taskResults, true, i);
        if nextTask >= |taskResults| {
          return Panicked;
        }
        records := records + [taskResults[nextTask]];
        nextTask := nextTask + 1;
      } else {
        DrawIsOwn(calls, results, otherResults, false, i);
        if nextOther >= |otherResults| {
          return Panicked;
        }
        records := records + [otherResults[nextOther]];
        nextOther := nextOther + 1;
      }
    }
    AllDrawn(calls);
    return Done(records);
  }

  // One call named "tas" + Kelvin sign: it is run as a task and then not found.
  lemma KelvinTaskIsLost()
    ensures var tc := ToolCall("tas\U{212A}", ""); IsTaskCall(tc) && !IsTask(tc) && !Agree([tc])
  {
    var tc := ToolCall("tas\U{212A}", "");
    TestsDifferIff(tc);
    assert [tc][0] == tc;
  }
}
