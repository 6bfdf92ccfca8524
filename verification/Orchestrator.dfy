/**
 The agent loop of `crates/forge_app/src/orch.rs`.

 Hooks, the model, the tools, the storage service and the message channel are the environment:
 an `Env` says what each of them answers in each turn, and every theorem holds for all of them.
 What the run does to the outside world is its trace. A run whose turns are used up before the
 loop stops is one that is cancelled there, so the theorems about traces also cover every
 prefix of a run that never ends.
 */
module Orchestration {

  import opened Prelude
  import opened ToolCalls

  datatype Message =
    | Answer(text: string, calls: seq<ToolCall>)
    | Output(result: ToolResult)
    | Plain(text: string)

  type Context = seq<Message>

  // `rest` stands for the fields the loop never touches.
  datatype Conversation = Conversation(context: Option<Context>, metrics: string, rest: string) {
    function Len(): nat {
      if context.Some? then |context.value| else 0
    }
  }

  // `followUp`: some tool call asks the user a follow-up question.
  datatype Reply = Reply(text: string, calls: seq<ToolCall>, stop: bool, followUp: bool) {
    predicate IsComplete() {
      stop && calls == []
    }
  }

  datatype Reason = MaxToolFailures | MaxRequests

  datatype Effect =
    | Persisted(conversation: Conversation)
    | Requested(context: Context)
    | Received(reply: Reply)
    | ToolsRan(left: Context, records: seq<Record>) // what the hooks left, and each call's result
    | Interrupted(reason: Reason)
    | EndHookRan(before: nat, after: nat)
    | TaskComplete

  // The effects of one run, oldest innermost.
  datatype Trace = Empty | Then(before: Trace, last: Effect)

  // ----- the environment -----

  // A hook may leave any conversation behind, whether or not it succeeds.
  datatype Hook = Hook(ok: bool, left: Conversation)

  datatype Turn = Turn(
    savesContext: bool,
    requestHook: Hook,
    reply: Option<Reply>,      // None: the model call fails for good
    responseHook: Hook,
    results: nat -> ToolResult, // what executing the i-th tool call answers
    alive: nat -> bool,        // whether the hooks and notifications around it succeed
    toolsLeft: Conversation,   // what the tools' hooks leave behind
    hint: Record -> ToolResult, // the result with the retry hint a failed tool is given
    renders: bool,             // those hints render
    toolFailureLimit: bool,    // the error tracker's limit is reached
    sendsFailureLimit: bool,
    savesAnswer: bool,
    sendsRequestLimit: bool,
    metrics: Option<string>,   // None: the shared metrics cannot be read
    endHook: Hook,
    savesEnd: bool)

  datatype Env = Env(
    startHook: Hook, turns: seq<Turn>, savesLast: bool, sendsComplete: bool, guardSaves: bool)

  // ----- the run as a function of its environment -----

  datatype State = State(conversation: Conversation, dirty: bool, stored: Conversation, trace: Trace)

  datatype Progress<+T> = Ok(value: T) | Err(state: State) {
    predicate IsFailure() {
      Err?
    }
    function PropagateFailure<U>(): Progress<U>
      requires Err?
    {
      Err(state)
    }
    function Extract(): T
      requires Ok?
    {
      value
    }
  }

  datatype Loop = Loop(s: State, context: Context, count: nat, isComplete: bool, shouldYield: bool)

  function Emit(s: State, e: Effect): State {
    s.(trace := Then(s.trace, e))
  }

  function MarkDirty(s: State): State {
    s.(dirty := true)
  }

  function FlushIfDirty(s: State, saves: bool): Progress<State> {
    if !s.dirty then Ok(s)
    else if !saves then Err(s)
    else Ok(Emit(s, Persisted(s.conversation)).(stored := s.conversation, dirty := false))
  }

  function RunHook(s: State, hook: Hook): Progress<State> {
    var left := s.(conversation := hook.left);
    if hook.ok then Ok(left) else Err(left)
  }

  function Send(s: State, e: Effect, sends: bool): Progress<State> {
    if sends then Ok(Emit(s, e)) else Err(s)
  }

  function SetContext(s: State, context: Context): State {
    s.(conversation := s.conversation.(context := Some(context)))
  }

  function SetMetrics(s: State, metrics: string): State {
    s.(conversation := s.conversation.(metrics := metrics))
  }

  function ContextOr(c: Conversation, default: Context): Context {
    if c.context.Some? then c.context.value else default
  }

  // What this turn's tools make of the calls.
  function RunTools(calls: seq<ToolCall>, turn: Turn): Outcome {
    Executed(calls, seq(|calls|, i requires 0 <= i => turn.results(i)), seq(|calls|, i requires 0 <= i => turn.alive(i)))
  }

  function Hinted(records: seq<Record>, hint: Record -> ToolResult): seq<Record> {
    seq(|records|, i requires 0 <= i < |records| => (records[i].0, hint(records[i])))
  }

  function Outputs(records: seq<Record>): Context {
    seq(|records|, i requires 0 <= i < |records| => Output(records[i].1))
  }

  // The answer, and behind it one output for each of its tool calls.
  function Append(context: Context, reply: Reply, records: seq<Record>): Context {
    context + [Answer(reply.text, reply.calls)] + Outputs(records)
  }

  // Save the context, run the Request hook, and ask the model.
  function Ask(l: Loop, turn: Turn): Progress<State> {
    var s :- FlushIfDirty(MarkDirty(SetContext(l.s, l.context)), turn.savesContext);
    var s :- RunHook(s, turn.requestHook);
    var s := Emit(s, Requested(l.context));
    if turn.reply.None? then Err(s) else Ok(Emit(s, Received(turn.reply.value)))
  }

  // Warn of too many tool failures, and save the context with the answer.
  function SaveAnswer(s: State, context: Context, turn: Turn): Progress<State> {
    var s :- if turn.toolFailureLimit then Send(s, Interrupted(MaxToolFailures), turn.sendsFailureLimit) else Ok(s);
    FlushIfDirty(MarkDirty(SetContext(s, context)), turn.savesAnswer)
  }

  // Run the hooks and tools, append the answer to the context they leave, and save it. A hook
  // of a tool call that fails ends the run, and so does a merge that panics.
  function Absorb(l: Loop, s: State, reply: Reply, turn: Turn): Progress<Loop> {
    var s :- RunHook(s, turn.responseHook);
    var s := s.(conversation := turn.toolsLeft);
    var tools := RunTools(reply.calls, turn);
    if !tools.Done? || !turn.renders then Err(s)
    else
      var left, records := ContextOr(s.conversation, l.context), Hinted(tools.records, turn.hint);
      var context := Append(left, reply, records);
      var s :- SaveAnswer(Emit(s, ToolsRan(left, records)), context, turn);
      Ok(Loop(s, context, l.count + 1, reply.IsComplete(),
              reply.IsComplete() || reply.followUp || turn.toolFailureLimit))
  }

  predicate OverLimit(l: Loop, limit: Option<nat>) {
    !l.shouldYield && limit.Some? && l.count >= limit.value
  }

  function RunEndHook(s: State, turn: Turn): Progress<State> {
    var left :- RunHook(s, turn.endHook);
    var left := Emit(left, EndHookRan(s.conversation.Len(), left.conversation.Len()));
    FlushIfDirty(MarkDirty(left), turn.savesEnd)
  }

  // Enforce the request limit, take over the metrics, and let the End hook extend the run.
  function Conclude(l: Loop, turn: Turn, limit: Option<nat>): Progress<Loop> {
    var s :- if OverLimit(l, limit) then Send(l.s, Interrupted(MaxRequests), turn.sendsRequestLimit) else Ok(l.s);
    if turn.metrics.None? then Err(s)
    else
      var s := SetMetrics(s, turn.metrics.value);
      if !l.shouldYield && !OverLimit(l, limit) then Ok(l.(s := s))
      else
        var before := s.conversation.Len();
        var s :- RunEndHook(s, turn);
        if s.conversation.Len() > before
        then Ok(l.(s := s, context := ContextOr(s.conversation, l.context), shouldYield := false))
        else Ok(l.(s := s, shouldYield := true))
  }

  function TurnStep(l: Loop, turn: Turn, limit: Option<nat>): Progress<Loop> {
    var s :- Ask(l, turn);
    var absorbed :- Absorb(l, s, turn.reply.value, turn);
    Conclude(absorbed, turn, limit)
  }

  function Iterate(l: Loop, turns: seq<Turn>, limit: Option<nat>): Progress<Loop>
    decreases |turns|
  {
    if l.shouldYield then Ok(l)
    else if turns == [] then Err(l.s)
    else
      var next :- TurnStep(l, turns[0], limit);
      Iterate(next, turns[1..], limit)
  }

  function Body(s: State, context: Context, env: Env, limit: Option<nat>): Progress<State> {
    var l :- Iterate(Loop(s, context, 0, false, false), env.turns, limit);
    var s :- FlushIfDirty(MarkDirty(l.s), env.savesLast);
    if l.isComplete then Send(s, TaskComplete, env.sendsComplete) else Ok(s)
  }

  // The guard holds the dirty flag and the conversation of its installation, and saves that
  // conversation when the run ends if that flag was set.
  function DropGuard(s: State, installed: State, saves: bool): State {
    if installed.dirty && saves
    then Emit(s, Persisted(installed.conversation)).(stored := installed.conversation)
    else s
  }

  function RunAll(s: State, env: Env, limit: Option<nat>): Progress<State> {
    var context := ContextOr(s.conversation, []);
    var installed :- RunHook(s.(trace := Empty), env.startHook);
    match Body(installed, context, env, limit)
    case Ok(done) => Ok(DropGuard(done, installed, env.guardSaves))
    case Err(at) => Err(DropGuard(at, installed, env.guardSaves))
  }

  // ----- the orchestrator itself -----

  class Orchestrator {
    const limit: Option<nat>
    var conversation: Conversation
    var dirty: bool
    var stored: Conversation
    var trace: Trace

    function View(): State
      reads this
    {
      State(conversation, dirty, stored, trace)
    }

    constructor (conversation: Conversation, stored: Conversation, limit: Option<nat>)
      ensures View() == State(conversation, false, stored, Empty) && this.limit == limit
    {
      this.conversation, this.stored, this.limit := conversation, stored, limit;
      this.dirty := false;
      this.trace := Empty;
    }

    method AddToTrace(e: Effect)
      modifies this`trace
      ensures trace == Then(old(trace), e)
    {
      trace := Then(trace, e);
    }

    method Flush(saves: bool) returns (ok: bool)
      modifies this`dirty, this`stored, this`trace
      ensures FlushIfDirty(old(View()), saves) == (if ok then Ok(View()) else Err(View()))
    {
      if dirty {
        if !saves {
          return false;
        }
        AddToTrace(Persisted(conversation));
        stored := conversation;
        dirty := false;
      }
      return true;
    }

    method RequestReply(context: Context, turn: Turn, ghost l: Loop) returns (ok: bool)
      requires l.s == View() && l.context == context
      modifies this
      ensures Ask(l, turn) == (if ok then Ok(View()) else Err(View()))
      ensures ok ==> turn.reply.Some?
    {
      conversation := conversation.(context := Some(context));
      dirty := true;
      ok := Flush(turn.savesContext);
      if !ok {
        return;
      }
      conversation := turn.requestHook.left;
      if !turn.requestHook.ok {
        return false;
      }
      AddToTrace(Requested(context));
      if turn.reply.None? {
        return false;
      }
      AddToTrace(Received(turn.reply.value));
    }

    method ProcessReply(context: Context, reply: Reply, turn: Turn, ghost l: Loop)
      returns (ok: bool, next: Context, isComplete: bool, shouldYield: bool)
      requires l.context == context
      modifies this
      ensures Absorb(l, old(View()), reply, turn) ==
              (if ok then Ok(Loop(View(), next, l.count + 1, isComplete, shouldYield)) else Err(View()))
    {
      next, isComplete, shouldYield := context, false, false;
      conversation := turn.responseHook.left;
      if !turn.responseHook.ok {
        return false, next, isComplete, shouldYield;
      }
      isComplete := reply.stop && reply.calls == [];
      shouldYield := isComplete || reply.followUp;
      var tools := CallTools(reply.calls, turn);
      conversation := turn.toolsLeft;
      if !tools.Done? {
        return false, next, isComplete, shouldYield;
      }
      if conversation.context.Some? {
        next := conversation.context.value;
      }
      if !turn.renders {
        return false, next, isComplete, shouldYield;
      }
      var records := Hinted(tools.records, turn.hint);
      AddToTrace(ToolsRan(next, records));
      next := Append(next, reply, records);
      shouldYield := shouldYield || turn.toolFailureLimit;
      ok := StoreAnswer(next, turn);
    }

    method CallTools(calls: seq<ToolCall>, turn: Turn) returns (tools: Outcome)
      ensures tools == RunTools(calls, turn)
    {
      var order := Finishing(|Where(calls, true, |calls|)|);
      tools := ExecuteToolCalls(
        calls, seq(|calls|, i requires 0 <= i => turn.results(i)), order, seq(|calls|, i requires 0 <= i => turn.alive(i)));
    }

    method StoreAnswer(context: Context, turn: Turn) returns (ok: bool)
      modifies this
      ensures SaveAnswer(old(View()), context, turn) == (if ok then Ok(View()) else Err(View()))
    {
      if turn.toolFailureLimit {
        if !turn.sendsFailureLimit {
          return false;
        }
        AddToTrace(Interrupted(MaxToolFailures));
      }
      conversation := conversation.(context := Some(context));
      dirty := true;
      ok := Flush(turn.savesAnswer);
    }

    method FinishTurn(context: Context, count: nat, due: bool, turn: Turn, ghost l: Loop)
      returns (ok: bool, next: Context, shouldYield: bool)
      requires l.s == View() && l.context == context && l.count == count && l.shouldYield == due
      modifies this
      ensures Conclude(l, turn, limit) ==
              (if ok then Ok(Loop(View(), next, count, l.isComplete, shouldYield)) else Err(View()))
    {
      next, shouldYield := context, due;
      if !shouldYield && limit.Some? && count >= limit.value {
        if !turn.sendsRequestLimit {
          return false, next, shouldYield;
        }
        AddToTrace(Interrupted(MaxRequests));
        shouldYield := true;
      }
      if turn.metrics.None? {
        return false, next, shouldYield;
      }
      conversation := conversation.(metrics := turn.metrics.value);
      ok := true;
      if shouldYield {
        var before := conversation.Len();
        conversation := turn.endHook.left;
        if !turn.endHook.ok {
          return false, next, shouldYield;
        }
        AddToTrace(EndHookRan(before, conversation.Len()));
        dirty := true;
        ok := Flush(turn.savesEnd);
        if ok && conversation.Len() > before {
          if conversation.context.Some? {
            next := conversation.context.value;
          }
          shouldYield := false;
        }
      }
    }

    // One pass through the loop body.
    method TakeTurn(context: Context, count: nat, turn: Turn, ghost l: Loop)
      returns (ok: bool, next: Context, isComplete: bool, shouldYield: bool)
      requires l.s == View() && l.context == context && l.count == count
      modifies this
      ensures TurnStep(l, turn, limit) ==
              (if ok then Ok(Loop(View(), next, count + 1, isComplete, shouldYield)) else Err(View()))
    {
      next, isComplete, shouldYield := context, false, false;
      ok := RequestReply(context, turn, l);
      if !ok {
        return;
      }
      ok, next, isComplete, shouldYield := ProcessReply(context, turn.reply.value, turn, l);
      if !ok {
        return;
      }
      ok, next, shouldYield :=
        FinishTurn(next, count + 1, shouldYield, turn, Loop(View(), next, count + 1, isComplete, shouldYield));
    }

    method LoopUntilDone(start: Context, env: Env) returns (ok: bool, isComplete: bool, ghost last: Loop)
      modifies this
      ensures Iterate(Loop(old(View()), start, 0, false, false), env.turns, limit) ==
              (if ok then Ok(last) else Err(View()))
      ensures ok ==> last.s == View() && last.isComplete == isComplete
    {
      ghost var first := Loop(View(), start, 0, false, false);
      var context, count, shouldYield := start, 0, false;
      ok, isComplete := true, false;
      last := first;
      var k := 0;
      assert env.turns[0..] == env.turns;
      while !shouldYield
        invariant k <= |env.turns|
        invariant last == Loop(View(), context, count, isComplete, shouldYield)
        invariant Iterate(last, env.turns[k..], limit) == Iterate(first, env.turns, limit)
        decreases |env.turns| - k
      {
        if k == |env.turns| {
          return false, isComplete, last;
        }
        assert env.turns[k..][1..] == env.turns[k + 1..];
        ok, context, isComplete, shouldYield := TakeTurn(context, count, env.turns[k], last);
        if !ok {
          return;
        }
        count := count + 1;
        last := Loop(View(), context, count, isComplete, shouldYield);
        k := k + 1;
      }
      ok := true;
    }

    method Run(env: Env) returns (ok: bool)
      modifies this
      ensures RunAll(old(View()), env, limit) == (if ok then Ok(View()) else Err(View()))
    {
      var context := if conversation.context.Some? then conversation.context.value else [];
      trace := Empty;
      conversation := env.startHook.left;
      if !env.startHook.ok {
        return false;
      }
      var guardDirty, guardConversation := dirty, conversation;
      ghost var installed := View();
      ok := Guarded(context, env);
      if guardDirty && env.guardSaves {
        AddToTrace(Persisted(guardConversation));
        stored := guardConversation;
      }
    }

    // Everything that happens while the guard is in place.
    method Guarded(context: Context, env: Env) returns (ok: bool)
      modifies this
      ensures Body(old(View()), context, env, limit) == (if ok then Ok(View()) else Err(View()))
    {
      var isComplete;
      ghost var last;
      ok, isComplete, last := LoopUntilDone(context, env);
      if !ok {
        return;
      }
      dirty := true;
      ok := Flush(env.savesLast);
      if !ok {
        return;
      }
      if isComplete {
        if !env.sendsComplete {
          return false;
        }
        AddToTrace(TaskComplete);
      }
    }
  }
}
