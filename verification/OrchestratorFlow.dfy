/**
 What every run of the agent loop does from turn to turn, read off its trace and what the
 environment gives: what each request carries, when the loop goes on and when it stops, and what
 it ends with.
 */
module OrchestratorFlow {

  import opened Prelude
  import opened ToolCalls
  import opened Orchestration
  import opened OrchestratorRuns

  // ----- reading a trace -----

  // The loop is due to stop: the last answer was complete or asks the user a question, or a limit
  // was announced, and the End hook has not added messages since.
  predicate Halted(t: Trace) {
    match t
    case Empty => false
    case Then(before, Received(reply)) => (reply.stop && reply.calls == []) || reply.followUp
    case Then(before, Interrupted(_)) => true
    case Then(before, EndHookRan(was, now)) => now <= was
    case Then(before, _) => Halted(before)
  }

  // The End hook has run and what it left has been saved.
  predicate Resumed(t: Trace) {
    t.Then? && t.last.Persisted? && t.before.Then? && t.before.last.EndHookRan?
  }

  // What the turn that ends with this trace hands to the next: what the End hook left, or what
  // the tools' hooks left with the context that was saved and the turn's metrics.
  function Carried(t: Trace, turns: seq<Turn>): Conversation
    requires 0 < Requests(t) <= |turns|
  {
    var turn := turns[Requests(t) - 1];
    if Resumed(t) then turn.endHook.left
    else turn.toolsLeft.(
      context := if LastSaved(t).Some? then LastSaved(t).value.context else None,
      metrics := if turn.metrics.Some? then turn.metrics.value else "")
  }

  // No limit was reached in the turn that ends with this trace.
  predicate NoLimit(t: Trace, limit: Option<nat>, turns: seq<Turn>)
    requires 0 < Requests(t) <= |turns|
  {
    !turns[Requests(t) - 1].toolFailureLimit && (limit.Some? ==> Requests(t) < limit.value)
  }

  // What may come after a trace. `first` is what the first request is saved with.
  predicate MayFollow(t: Trace, e: Effect, first: Conversation, limit: Option<nat>, turns: seq<Turn>) {
    var n := Requests(t);
    match e
    case Persisted(_) => true
    case Requested(_) =>
      && n < |turns| && turns[n].savesContext && turns[n].requestHook.ok
      && !Halted(t) && t.Then? && t.last.Persisted?
      && t.last.conversation == (if n == 0 then first else Carried(t.before, turns))
      && (n > 0 ==> turns[n - 1].metrics.Some?)
      && (n > 0 && !Resumed(t.before) ==> NoLimit(t.before, limit, turns))
    case Received(reply) =>
      0 < n <= |turns| && turns[n - 1].reply == Some(reply) && t.Then? && t.last.Requested?
    case ToolsRan(left, _) =>
      && 0 < n <= |turns| && turns[n - 1].responseHook.ok && turns[n - 1].renders
      && t.Then? && t.last.Received? && t.before.Then? && t.before.last.Requested?
      && (forall i :: 0 <= i < |t.last.reply.calls| ==> IsTaskCall(t.last.reply.calls[i]) || turns[n - 1].alive(i))
      && left == ContextOr(turns[n - 1].toolsLeft, t.before.last.context)
    case Interrupted(MaxToolFailures) =>
      0 < n <= |turns| && turns[n - 1].toolFailureLimit && turns[n - 1].sendsFailureLimit
    case Interrupted(MaxRequests) =>
      0 < n <= |turns| && !Halted(t) && limit.Some? && n >= limit.value && turns[n - 1].sendsRequestLimit
    case EndHookRan(was, now) =>
      && 0 < n <= |turns| && Halted(t) && turns[n - 1].metrics.Some? && turns[n - 1].endHook.ok
      && LastSaved(t).Some? && was == LastSaved(t).value.Len() && now == turns[n - 1].endHook.left.Len()
    case TaskComplete => Halted(t)
  }

  predicate Flows(t: Trace, first: Conversation, limit: Option<nat>, turns: seq<Turn>) {
    t.Then? ==> Flows(t.before, first, limit, turns) && MayFollow(t.before, t.last, first, limit, turns)
  }

  predicate Flowed(s: State, first: Conversation, limit: Option<nat>, turns: seq<Turn>) {
    Flows(s.trace, first, limit, turns)
  }

  // ----- the loop invariant -----

  ghost predicate HeadFlows(l: Loop, first: Conversation, limit: Option<nat>, turns: seq<Turn>) {
    var t := l.s.trace;
    && Flows(t, first, limit, turns)
    && Requests(t) == l.count <= |turns|
    && (Halted(t) <==> l.shouldYield)
    && (l.count == 0 ==> t == Empty && SetContext(l.s, l.context).conversation == first)
    && (l.count > 0 ==>
          && t.Then? && t.last.Persisted? && turns[l.count - 1].metrics.Some?
          && l.s.conversation == Carried(t, turns)
          && (l.shouldYield ==> Resumed(t))
          && (!l.shouldYield ==> l.s.conversation.context == Some(l.context))
          && (!Resumed(t) ==> NoLimit(t, limit, turns)))
  }

  lemma AskFlows(l: Loop, turn: Turn, first: Conversation, limit: Option<nat>, turns: seq<Turn>)
    requires HeadFlows(l, first, limit, turns) && !l.shouldYield
    requires l.count < |turns| && turn == turns[l.count]
    ensures Flowed(Final(Ask(l, turn)), first, limit, turns)
    ensures Ask(l, turn).Ok? ==>
              && Requests(Ask(l, turn).value.trace) == l.count + 1
              && turn.reply.Some? && JustReceived(Ask(l, turn).value.trace, l.context, turn.reply.value)
  {
    var saved := Then(l.s.trace, Persisted(SetContext(l.s, l.context).conversation));
    var asked := Then(saved, Requested(l.context));
    if turn.savesContext && turn.requestHook.ok {
      assert Flows(saved, first, limit, turns);
      assert MayFollow(saved, Requested(l.context), first, limit, turns);
      assert Requests(asked) == l.count + 1;
    }
  }

  predicate JustReceived(t: Trace, context: Context, reply: Reply) {
    t.Then? && t.last == Received(reply) && t.before.Then? && t.before.last == Requested(context)
  }

  // What the turn has come to once the answer is saved.
  ghost predicate Answered(l: Loop, turn: Turn, first: Conversation, limit: Option<nat>, turns: seq<Turn>) {
    var t := l.s.trace;
    && Flows(t, first, limit, turns) && 0 < l.count == Requests(t) <= |turns| && turn == turns[l.count - 1]
    && (Halted(t) <==> l.shouldYield)
    && t.Then? && t.last.Persisted? && !Resumed(t)
    && l.s.conversation == turn.toolsLeft.(context := Some(l.context))
    && LastSaved(t) == Some(l.s.conversation)
    && (!l.shouldYield ==> !turn.toolFailureLimit)
  }

  lemma AbsorbFlows(l: Loop, s: State, reply: Reply, turn: Turn, first: Conversation, limit: Option<nat>, turns: seq<Turn>)
    requires Flows(s.trace, first, limit, turns) && JustReceived(s.trace, l.context, reply)
    requires Requests(s.trace) == l.count + 1 <= |turns| && turn == turns[l.count]
    ensures Absorb(l, s, reply, turn).Err? ==> Flowed(Absorb(l, s, reply, turn).state, first, limit, turns)
    ensures Absorb(l, s, reply, turn).Ok? ==>
              && Answered(Absorb(l, s, reply, turn).value, turn, first, limit, turns)
              && Absorb(l, s, reply, turn).value.count == l.count + 1
  {
    if !turn.responseHook.ok || !turn.renders || !RunTools(reply.calls, turn).Done? {
      return;
    }
    var left, records := ContextOr(turn.toolsLeft, l.context), Hinted(RunTools(reply.calls, turn).records, turn.hint);
    var ran := Emit(s.(conversation := turn.toolsLeft), ToolsRan(left, records));
    ToolsFlow(s, l.context, reply, records, turn, first, limit, turns);
    SaveAnswerFlows(ran, Append(left, reply, records), turn, first, limit, turns);
  }

  lemma ToolsFlow(
    s: State, context: Context, reply: Reply, records: seq<Record>, turn: Turn,
    first: Conversation, limit: Option<nat>, turns: seq<Turn>)
    requires Flows(s.trace, first, limit, turns) && JustReceived(s.trace, context, reply)
    requires 0 < Requests(s.trace) <= |turns| && turn == turns[Requests(s.trace) - 1]
    requires turn.responseHook.ok && turn.renders && RunTools(reply.calls, turn).Done?
    ensures var ran := Then(s.trace, ToolsRan(ContextOr(turn.toolsLeft, context), records));
            && Flows(ran, first, limit, turns) && Requests(ran) == Requests(s.trace)
            && (Halted(ran) <==> reply.IsComplete() || reply.followUp)
  {
    AllAlive(reply.calls, turn);
    assert Halted(s.trace) <==> reply.IsComplete() || reply.followUp;
    assert MayFollow(s.trace, ToolsRan(ContextOr(turn.toolsLeft, context), records), first, limit, turns);
  }

  // What saving the answer comes to.
  ghost predicate Saved(s: State, at: State, context: Context, turn: Turn) {
    && Requests(at.trace) == Requests(s.trace)
    && (Halted(at.trace) <==> Halted(s.trace) || turn.toolFailureLimit)
    && at.trace.Then? && at.trace.last.Persisted? && !Resumed(at.trace)
    && at.conversation == s.conversation.(context := Some(context))
    && LastSaved(at.trace) == Some(at.conversation)
  }

  lemma SaveAnswerFlows(
    s: State, context: Context, turn: Turn, first: Conversation, limit: Option<nat>, turns: seq<Turn>)
    requires Flowed(s, first, limit, turns) && s.trace.Then? && s.trace.last.ToolsRan?
    requires 0 < Requests(s.trace) <= |turns| && turn == turns[Requests(s.trace) - 1]
    ensures Flowed(Final(SaveAnswer(s, context, turn)), first, limit, turns)
    ensures SaveAnswer(s, context, turn).Ok? ==> Saved(s, SaveAnswer(s, context, turn).value, context, turn)
  {
    if turn.toolFailureLimit && turn.sendsFailureLimit {
      var warned := Then(s.trace, Interrupted(MaxToolFailures));
      assert Flows(warned, first, limit, turns) && Halted(warned) && Requests(warned) == Requests(s.trace);
    }
  }

  lemma AllAlive(calls: seq<ToolCall>, turn: Turn)
    requires RunTools(calls, turn).Done?
    ensures forall i :: 0 <= i < |calls| ==> IsTaskCall(calls[i]) || turn.alive(i)
  {
    var alive := seq(|calls|, i requires 0 <= i => turn.alive(i));
    assert !HookFails(calls, alive);
    forall i | 0 <= i < |calls| && !IsTaskCall(calls[i])
      ensures turn.alive(i)
    {
      assert alive[i];
    }
  }

  lemma ConcludeFlows(
    l: Loop, p: Progress<Loop>, turn: Turn, first: Conversation, limit: Option<nat>, turns: seq<Turn>)
    requires Answered(l, turn, first, limit, turns) && p == Conclude(l, turn, limit)
    ensures p.Err? ==> Flowed(p.state, first, limit, turns)
    ensures p.Ok? ==> HeadFlows(p.value, first, limit, turns) && p.value.count == l.count
  {
    if turn.metrics.None? {
      return;
    }
    if !l.shouldYield && !OverLimit(l, limit) {
      GoesOn(l, turn, first, limit, turns);
    } else if !OverLimit(l, limit) {
      StopFlows(l, l.s, p, turn, first, limit, turns);
    } else if turn.sendsRequestLimit {
      LimitFlows(l, turn, first, limit, turns);
      StopFlows(l, Emit(l.s, Interrupted(MaxRequests)), p, turn, first, limit, turns);
    }
  }

  // The end of a turn with which the loop is due to stop.
  lemma StopFlows(
    l: Loop, warned: State, p: Progress<Loop>, turn: Turn, first: Conversation, limit: Option<nat>, turns: seq<Turn>)
    requires 0 < l.count <= |turns| && turn == turns[l.count - 1] && turn.metrics.Some?
    requires Flowed(warned, first, limit, turns) && Halted(warned.trace) && Requests(warned.trace) == l.count
    requires LastSaved(warned.trace) == Some(warned.conversation)
    requires var ended := RunEndHook(SetMetrics(warned, turn.metrics.value), turn);
             p == if ended.Err? then Err(ended.state)
                  else if ended.value.conversation.Len() > warned.conversation.Len()
                  then Ok(l.(s := ended.value, context := ContextOr(ended.value.conversation, l.context), shouldYield := false))
                  else Ok(l.(s := ended.value, shouldYield := true))
    ensures p.Err? ==> Flowed(p.state, first, limit, turns)
    ensures p.Ok? ==> HeadFlows(p.value, first, limit, turns) && p.value.count == l.count
  {
    var at := SetMetrics(warned, turn.metrics.value);
    EndHookFlows(at, turn, first, limit, turns);
    if RunEndHook(at, turn).Ok? {
      HeadAfterHook(l, RunEndHook(at, turn).value, at.conversation.Len(), turn, first, limit, turns);
    }
  }

  lemma HeadAfterHook(
    l: Loop, at: State, before: nat, turn: Turn, first: Conversation, limit: Option<nat>, turns: seq<Turn>)
    requires Flowed(at, first, limit, turns) && 0 < l.count == Requests(at.trace) <= |turns| && turn == turns[l.count - 1]
    requires Resumed(at.trace) && at.conversation == turn.endHook.left && turn.metrics.Some?
    requires Halted(at.trace) <==> at.conversation.Len() <= before
    ensures if at.conversation.Len() > before
            then HeadFlows(l.(s := at, context := ContextOr(at.conversation, l.context), shouldYield := false), first, limit, turns)
            else HeadFlows(l.(s := at, shouldYield := true), first, limit, turns)
  {
  }

  lemma LimitFlows(l: Loop, turn: Turn, first: Conversation, limit: Option<nat>, turns: seq<Turn>)
    requires Answered(l, turn, first, limit, turns) && OverLimit(l, limit) && turn.sendsRequestLimit
    ensures var warned := Then(l.s.trace, Interrupted(MaxRequests));
            && Flows(warned, first, limit, turns) && Halted(warned)
            && Requests(warned) == l.count && LastSaved(warned) == LastSaved(l.s.trace)
  {
    assert MayFollow(l.s.trace, Interrupted(MaxRequests), first, limit, turns);
  }

  lemma GoesOn(l: Loop, turn: Turn, first: Conversation, limit: Option<nat>, turns: seq<Turn>)
    requires Answered(l, turn, first, limit, turns) && !l.shouldYield && !OverLimit(l, limit) && turn.metrics.Some?
    ensures HeadFlows(l.(s := SetMetrics(l.s, turn.metrics.value)), first, limit, turns)
  {
  }

  // What the End hook does to a run.
  predicate Ended(s: State, at: State, turn: Turn) {
    && Requests(at.trace) == Requests(s.trace)
    && Resumed(at.trace) && at.conversation == turn.endHook.left
    && (Halted(at.trace) <==> at.conversation.Len() <= s.conversation.Len())
  }

  lemma EndHookFlows(s: State, turn: Turn, first: Conversation, limit: Option<nat>, turns: seq<Turn>)
    requires Flows(s.trace, first, limit, turns) && Halted(s.trace) && turn.metrics.Some?
    requires 0 < Requests(s.trace) <= |turns| && turn == turns[Requests(s.trace) - 1]
    requires LastSaved(s.trace).Some? && LastSaved(s.trace).value.Len() == s.conversation.Len()
    ensures Flowed(Final(RunEndHook(s, turn)), first, limit, turns)
    ensures RunEndHook(s, turn).Ok? ==> Ended(s, RunEndHook(s, turn).value, turn)
  {
    var e := EndHookRan(s.conversation.Len(), turn.endHook.left.Len());
    if turn.endHook.ok {
      assert MayFollow(s.trace, e, first, limit, turns);
      assert Halted(Then(s.trace, e)) <==> turn.endHook.left.Len() <= s.conversation.Len();
    }
  }

  lemma TurnFlows(l: Loop, turn: Turn, first: Conversation, limit: Option<nat>, turns: seq<Turn>)
    requires HeadFlows(l, first, limit, turns) && !l.shouldYield
    requires l.count < |turns| && turn == turns[l.count]
    ensures TurnStep(l, turn, limit).Err? ==> Flowed(TurnStep(l, turn, limit).state, first, limit, turns)
    ensures TurnStep(l, turn, limit).Ok? ==>
              && HeadFlows(TurnStep(l, turn, limit).value, first, limit, turns)
              && TurnStep(l, turn, limit).value.count == l.count + 1
  {
    AskFlows(l, turn, first, limit, turns);
    var asked := Ask(l, turn);
    if asked.Ok? {
      AbsorbFlows(l, asked.value, turn.reply.value, turn, first, limit, turns);
      var absorbed := Absorb(l, asked.value, turn.reply.value, turn);
      if absorbed.Ok? {
        ConcludeFlows(absorbed.value, Conclude(absorbed.value, turn, limit), turn, first, limit, turns);
      }
    }
  }

  lemma OneTurn(l: Loop, limit: Option<nat>, turns: seq<Turn>)
    requires !l.shouldYield && l.count < |turns|
    ensures var step := TurnStep(l, turns[l.count], limit);
            Iterate(l, turns[l.count..], limit) ==
            if step.Ok? then Iterate(step.value, turns[l.count + 1..], limit) else step
  {
    assert turns[l.count..][1..] == turns[l.count + 1..];
  }

  // Every state an iteration ends in follows the flow, and it stops only when it is due to.
  ghost predicate LoopFlows(p: Progress<Loop>, first: Conversation, limit: Option<nat>, turns: seq<Turn>) {
    && (p.Err? ==> Flowed(p.state, first, limit, turns))
    && (p.Ok? ==> HeadFlows(p.value, first, limit, turns) && p.value.shouldYield)
  }

  lemma {:induction false} IterateFlows(
    l: Loop, p: Progress<Loop>, first: Conversation, limit: Option<nat>, turns: seq<Turn>)
    requires HeadFlows(l, first, limit, turns) && p == Iterate(l, turns[l.count..], limit)
    ensures LoopFlows(p, first, limit, turns)
    decreases |turns| - l.count
  {
    if !l.shouldYield && l.count < |turns| {
      OneTurn(l, limit, turns);
      TurnFlows(l, turns[l.count], first, limit, turns);
      var step := TurnStep(l, turns[l.count], limit);
      if step.Ok? {
        IterateFlows(step.value, p, first, limit, turns);
      }
    }
  }

  // ----- the theorems -----

  // What the first request is saved with: what the Start hook left, with the context from before.
  function FirstSaved(s: State, env: Env): Conversation {
    env.startHook.left.(context := Some(ContextOr(s.conversation, [])))
  }

  lemma BodyFlows(s: State, context: Context, env: Env, limit: Option<nat>)
    requires s.trace == Empty
    ensures Flowed(Final(Body(s, context, env, limit)), SetContext(s, context).conversation, limit, env.turns)
    ensures Body(s, context, env, limit).Ok? ==> EndsAfterHook(Body(s, context, env, limit).value, env.turns)
  {
    var l, first := Loop(s, context, 0, false, false), SetContext(s, context).conversation;
    assert env.turns[0..] == env.turns;
    IterateFlows(l, Iterate(l, env.turns, limit), first, limit, env.turns);
    if Iterate(l, env.turns, limit).Ok? {
      FinishFlows(Iterate(l, env.turns, limit).value, first, env, limit);
    }
  }

  lemma FinishFlows(l: Loop, first: Conversation, env: Env, limit: Option<nat>)
    requires HeadFlows(l, first, limit, env.turns) && l.shouldYield
    ensures var saved := Then(l.s.trace, Persisted(l.s.conversation));
            && EndsAfterHook(l.s.(trace := saved), env.turns) && Flowed(l.s.(trace := saved), first, limit, env.turns)
            && EndsAfterHook(l.s.(trace := Then(saved, TaskComplete)), env.turns)
            && Flowed(l.s.(trace := Then(saved, TaskComplete)), first, limit, env.turns)
  {
    var saved := Then(l.s.trace, Persisted(l.s.conversation));
    assert Resumed(l.s.trace) && Halted(saved) && Requests(saved) == l.count;
  }

  // The loop was due to stop, and the conversation is what the last turn's End hook left.
  predicate EndsAfterHook(s: State, turns: seq<Turn>) {
    && 0 < Requests(s.trace) <= |turns| && Halted(s.trace)
    && s.conversation == turns[Requests(s.trace) - 1].endHook.left
  }

  /** The flow of every run, finished, failed or cut short. The first request is saved with the
      context from before the run, each later one with what the turn before it handed on. The loop
      goes on exactly while it is not due to stop and no limit is reached; a limit is announced
      only when it is reached; and the End hook runs only when the loop is due to stop. A run that
      ends well ends with what the last turn's End hook left. */
  lemma EveryRunFlows(s: State, env: Env, limit: Option<nat>)
    ensures Flowed(Final(RunAll(s, env, limit)), FirstSaved(s, env), limit, env.turns)
    ensures RunAll(s, env, limit).Ok? ==> EndsAfterHook(RunAll(s, env, limit).value, env.turns)
    ensures !env.startHook.ok ==> RunAll(s, env, limit).Err? && RunAll(s, env, limit).state.trace == Empty
  {
    var installed := RunHook(s.(trace := Empty), env.startHook);
    if installed.Ok? {
      var context := ContextOr(s.conversation, []);
      BodyFlows(installed.value, context, env, limit);
      GuardFlows(Final(Body(installed.value, context, env, limit)), installed.value, env, FirstSaved(s, env), limit);
    }
  }

  lemma GuardFlows(s: State, installed: State, env: Env, first: Conversation, limit: Option<nat>)
    requires Flowed(s, first, limit, env.turns)
    ensures Flowed(DropGuard(s, installed, env.guardSaves), first, limit, env.turns)
    ensures EndsAfterHook(s, env.turns) ==> EndsAfterHook(DropGuard(s, installed, env.guardSaves), env.turns)
  {
  }

  // Nothing in this turn's environment fails.
  predicate Works(turn: Turn) {
    && turn.savesContext && turn.requestHook.ok && turn.reply.Some? && turn.responseHook.ok
    && Agree(turn.reply.value.calls) && (forall i :: 0 <= i < |turn.reply.value.calls| ==> turn.alive(i))
    && turn.renders && turn.sendsFailureLimit && turn.savesAnswer && turn.sendsRequestLimit
    && turn.metrics.Some? && turn.endHook.ok && turn.savesEnd
  }

  lemma WorkingTurn(l: Loop, turn: Turn, limit: Option<nat>)
    requires Works(turn)
    ensures TurnStep(l, turn, limit).Ok? && TurnStep(l, turn, limit).value.count == l.count + 1
  {
    var calls := turn.reply.value.calls;
    var alive := seq(|calls|, i requires 0 <= i => turn.alive(i));
    assert forall i :: 0 <= i < |calls| ==> alive[i] == turn.alive(i);
    assert RunTools(calls, turn).Done?;
  }

  lemma {:induction false} WorkingTurns(l: Loop, turns: seq<Turn>, limit: Option<nat>)
    requires forall k :: 0 <= k < |turns| ==> Works(turns[k])
    requires Requests(l.s.trace) == l.count
    ensures match Iterate(l, turns, limit)
            case Err(at) => Requests(at.trace) == l.count + |turns|
            case Ok(_) => true
    decreases |turns|
  {
    if !l.shouldYield && turns != [] {
      WorkingTurn(l, turns[0], limit);
      var next := TurnStep(l, turns[0], limit).value;
      OneRequest(l, turns[0], limit);
      WorkingTurns(next, turns[1..], limit);
    }
  }

  lemma OneRequest(l: Loop, turn: Turn, limit: Option<nat>)
    requires TurnStep(l, turn, limit).Ok?
    ensures Requests(TurnStep(l, turn, limit).value.s.trace) == Requests(l.s.trace) + 1
  {
    var asked := Ask(l, turn).value;
    assert Requests(asked.trace) == Requests(l.s.trace) + 1 by {
      var saved := Then(l.s.trace, Persisted(SetContext(l.s, l.context).conversation));
      assert Requests(Then(saved, Requested(l.context))) == Requests(l.s.trace) + 1;
    }
    AbsorbAsksNothing(l, asked, turn.reply.value, turn);
    ConcludeAsksNothing(Absorb(l, asked, turn.reply.value, turn).value, turn, limit);
  }

  lemma AbsorbAsksNothing(l: Loop, s: State, reply: Reply, turn: Turn)
    requires Absorb(l, s, reply, turn).Ok?
    ensures Requests(Absorb(l, s, reply, turn).value.s.trace) == Requests(s.trace)
  {
    var left, records := ContextOr(turn.toolsLeft, l.context), Hinted(RunTools(reply.calls, turn).records, turn.hint);
    assert Requests(Then(Then(s.trace, ToolsRan(left, records)), Interrupted(MaxToolFailures))) == Requests(s.trace);
  }

  lemma ConcludeAsksNothing(l: Loop, turn: Turn, limit: Option<nat>)
    requires Conclude(l, turn, limit).Ok?
    ensures Requests(Conclude(l, turn, limit).value.s.trace) == Requests(l.s.trace)
  {
    var ended := EndHookRan(SetMetrics(l.s, turn.metrics.value).conversation.Len(), turn.endHook.left.Len());
    assert Requests(Then(Then(l.s.trace, Interrupted(MaxRequests)), ended)) == Requests(l.s.trace);
    assert Requests(Then(l.s.trace, ended)) == Requests(l.s.trace);
  }

  /** A run only fails when something in its environment does: with every hook, save, message and
      model call working and the tool-name tests agreeing on every call, it ends well or is cut
      short after its last turn. */
  lemma WorkingRunEndsWell(s: State, env: Env, limit: Option<nat>)
    requires env.startHook.ok && env.savesLast && env.sendsComplete
    requires forall k :: 0 <= k < |env.turns| ==> Works(env.turns[k])
    ensures var r := RunAll(s, env, limit);
            r.Ok? || Requests(r.state.trace) == |env.turns|
  {
    var installed := RunHook(s.(trace := Empty), env.startHook).value;
    WorkingTurns(Loop(installed, ContextOr(s.conversation, []), 0, false, false), env.turns, limit);
  }
}
