/**
 What every run of the agent loop keeps, whatever hooks, model, tools, storage and channel
 answer: nothing is requested from or announced on unsaved state, the request limit bounds the
 turns, and a finished run that started clean leaves the stored conversation equal to the one in
 memory. From a dirty start the drop guard may undo that.
 */
module OrchestratorRuns {

  import opened Prelude
  import opened ToolCalls
  import opened Orchestration

  // ----- reading a trace -----

  function LastSaved(t: Trace): Option<Conversation> {
    match t
    case Empty => None
    case Then(before, Persisted(c)) => Some(c)
    case Then(before, _) => LastSaved(before)
  }

  // Every request carries exactly the context that was last saved.
  predicate WriteAhead(t: Trace) {
    match t
    case Empty => true
    case Then(before, e) =>
      && WriteAhead(before)
      && (e.Requested? ==> LastSaved(before).Some? && LastSaved(before).value.context == Some(e.context))
  }

  function AsMessage(reply: Reply): Message {
    Answer(reply.text, reply.calls)
  }

  predicate Holds(c: Conversation, reply: Reply) {
    c.context.Some? && AsMessage(reply) in c.context.value
  }

  // What is owed to the store: nothing, an answer whose tools have not run, or the context that
  // the hooks left with that very answer and its tools' outputs at its end.
  datatype Debt = Clear | Awaiting(reply: Reply) | Due(context: Context)

  // Only a save of exactly the context that is due settles it.
  function Unsaved(t: Trace): Debt {
    match t
    case Empty => Clear
    case Then(before, Received(reply)) => Awaiting(reply)
    case Then(before, ToolsRan(left, records)) =>
      if Unsaved(before).Awaiting? then Due(Append(left, Unsaved(before).reply, records)) else Unsaved(before)
    case Then(before, Persisted(c)) =>
      if Unsaved(before).Due? && c.context == Some(Unsaved(before).context) then Clear else Unsaved(before)
    case Then(before, _) => Unsaved(before)
  }

  // No request and no completion is sent out while an answer is unsaved.
  predicate AnswersSaved(t: Trace) {
    match t
    case Empty => true
    case Then(before, e) => AnswersSaved(before) && (e.Requested? || e.TaskComplete? ==> Unsaved(before).Clear?)
  }

  // Each call with what executing it in this turn answers.
  function OwnResults(calls: seq<ToolCall>, turn: Turn): seq<Record> {
    seq(|calls|, i requires 0 <= i < |calls| => (calls[i], turn.hint((calls[i], turn.results(i)))))
  }

  // Tools are only run for an answer that has just come in, and each of its calls is given its
  // own result of the turn it came in.
  ghost predicate ToolsAnswered(t: Trace, turns: seq<Turn>) {
    match t
    case Empty => true
    case Then(before, e) =>
      && ToolsAnswered(before, turns)
      && (e.ToolsRan? ==>
            && Unsaved(before).Awaiting? && 0 < Requests(before) <= |turns|
            && Agree(Unsaved(before).reply.calls)
            && e.records == OwnResults(Unsaved(before).reply.calls, turns[Requests(before) - 1]))
  }

  function Requests(t: Trace): nat {
    if t.Empty? then 0 else Requests(t.before) + if t.last.Requested? then 1 else 0
  }

  // The turns after which the End hook added messages.
  function Extensions(t: Trace): nat {
    if t.Empty? then 0
    else Extensions(t.before) + if t.last.EndHookRan? && t.last.after > t.last.before then 1 else 0
  }

  function Announcements(t: Trace): nat {
    if t.Empty? then 0 else Announcements(t.before) + if t.last.TaskComplete? then 1 else 0
  }

  function LastReply(t: Trace): Option<Reply> {
    match t
    case Empty => None
    case Then(before, Received(reply)) => Some(reply)
    case Then(before, _) => LastReply(before)
  }

  // ----- the loop invariant -----

  function Bound(t: Trace, limit: nat): nat {
    Max(1, limit) + Extensions(t)
  }

  // What holds at every moment of a run.
  ghost predicate Kept(t: Trace, limit: Option<nat>, turns: seq<Turn>) {
    && WriteAhead(t) && AnswersSaved(t) && ToolsAnswered(t, turns)
    && (limit.Some? ==> Requests(t) <= Bound(t, limit.value))
  }

  // What holds besides whenever the loop's guard is evaluated.
  ghost predicate AtHead(l: Loop, limit: Option<nat>, turns: seq<Turn>) {
    var t := l.s.trace;
    && Kept(t, limit, turns) && Unsaved(t).Clear? && Announcements(t) == 0
    && Requests(t) == l.count <= |turns|
    && (limit.Some? && !l.shouldYield ==> Requests(t) < Bound(t, limit.value))
    && (l.count == 0 ==> !l.shouldYield)
    && (l.count > 0 ==> LastReply(t).Some? && LastReply(t).value.IsComplete() == l.isComplete)
  }

  ghost predicate Stopped(s: State, limit: Option<nat>, turns: seq<Turn>) {
    Kept(s.trace, limit, turns) && Announcements(s.trace) == 0
  }

  // What one more effect does to each reading of the trace.
  lemma SaveKeeps(t: Trace, c: Conversation, limit: Option<nat>, turns: seq<Turn>)
    requires Kept(t, limit, turns)
    ensures var u := Then(t, Persisted(c));
            && Kept(u, limit, turns) && Announcements(u) == Announcements(t) && LastReply(u) == LastReply(t)
            && Requests(u) == Requests(t) && Extensions(u) == Extensions(t) && LastSaved(u) == Some(c)
            && Unsaved(u) == if Unsaved(t).Due? && c.context == Some(Unsaved(t).context) then Clear else Unsaved(t)
  {
  }

  lemma RequestKeeps(t: Trace, context: Context, limit: Option<nat>, turns: seq<Turn>)
    requires Kept(t, limit, turns) && Unsaved(t).Clear?
    requires LastSaved(t).Some? && LastSaved(t).value.context == Some(context)
    requires limit.Some? ==> Requests(t) < Bound(t, limit.value)
    ensures var u := Then(t, Requested(context));
            && Kept(u, limit, turns) && Announcements(u) == Announcements(t) && Unsaved(u).Clear?
            && Requests(u) == Requests(t) + 1 && Extensions(u) == Extensions(t)
  {
  }

  lemma ReceiveKeeps(t: Trace, reply: Reply, limit: Option<nat>, turns: seq<Turn>)
    requires Kept(t, limit, turns)
    ensures var u := Then(t, Received(reply));
            && Kept(u, limit, turns) && Announcements(u) == Announcements(t)
            && Unsaved(u) == Awaiting(reply) && LastReply(u) == Some(reply)
            && Requests(u) == Requests(t) && Extensions(u) == Extensions(t)
  {
  }

  lemma ToolsKeep(t: Trace, left: Context, reply: Reply, limit: Option<nat>, turns: seq<Turn>)
    requires Kept(t, limit, turns) && Unsaved(t) == Awaiting(reply) && 0 < Requests(t) <= |turns|
    requires Agree(reply.calls)
    ensures var records := OwnResults(reply.calls, turns[Requests(t) - 1]);
            var u := Then(t, ToolsRan(left, records));
            && Kept(u, limit, turns) && Announcements(u) == Announcements(t) && LastReply(u) == LastReply(t)
            && Requests(u) == Requests(t) && Extensions(u) == Extensions(t)
            && Unsaved(u) == Due(Append(left, reply, records))
  {
  }

  lemma AnnounceKeeps(t: Trace, limit: Option<nat>, turns: seq<Turn>)
    requires Kept(t, limit, turns) && Unsaved(t).Clear?
    ensures var u := Then(t, TaskComplete);
            && Kept(u, limit, turns) && Announcements(u) == Announcements(t) + 1 && LastReply(u) == LastReply(t)
  {
  }

  // Effects that neither ask, answer, save nor announce.
  lemma NoticeKeeps(t: Trace, e: Effect, limit: Option<nat>, turns: seq<Turn>)
    requires e.Interrupted? || e.EndHookRan?
    requires Kept(t, limit, turns)
    ensures var u := Then(t, e);
            && Kept(u, limit, turns) && Announcements(u) == Announcements(t) && Unsaved(u) == Unsaved(t)
            && LastReply(u) == LastReply(t) && Requests(u) == Requests(t)
            && Extensions(u) == Extensions(t) + if e.EndHookRan? && e.after > e.before then 1 else 0
  {
  }

  lemma AskKeeps(l: Loop, turn: Turn, limit: Option<nat>, turns: seq<Turn>)
    requires AtHead(l, limit, turns) && !l.shouldYield
    ensures match Ask(l, turn)
            case Err(s) => Stopped(s, limit, turns)
            case Ok(s) =>
              && Stopped(s, limit, turns) && turn.reply.Some?
              && Unsaved(s.trace) == Awaiting(turn.reply.value) && LastReply(s.trace) == turn.reply
              && Requests(s.trace) == l.count + 1 && Extensions(s.trace) == Extensions(l.s.trace)
  {
    var asking := SetContext(l.s, l.context);
    var saved := Then(l.s.trace, Persisted(asking.conversation));
    var requested := Then(saved, Requested(l.context));
    SaveKeeps(l.s.trace, asking.conversation, limit, turns);
    RequestKeeps(saved, l.context, limit, turns);
    if turn.reply.Some? {
      ReceiveKeeps(requested, turn.reply.value, limit, turns);
    }
  }

  lemma ToolsGiveOwnResults(calls: seq<ToolCall>, turn: Turn)
    requires RunTools(calls, turn).Done?
    ensures Agree(calls) && Hinted(RunTools(calls, turn).records, turn.hint) == OwnResults(calls, turn)
  {
  }

  lemma AbsorbKeeps(l: Loop, s: State, reply: Reply, turn: Turn, limit: Option<nat>, turns: seq<Turn>)
    requires Stopped(s, limit, turns) && Unsaved(s.trace) == Awaiting(reply) && LastReply(s.trace) == Some(reply)
    requires Requests(s.trace) == l.count + 1 <= |turns| && turn == turns[l.count]
    ensures match Absorb(l, s, reply, turn)
            case Err(at) => Stopped(at, limit, turns)
            case Ok(next) =>
              && Stopped(next.s, limit, turns) && Unsaved(next.s.trace).Clear?
              && Requests(next.s.trace) == next.count == l.count + 1
              && LastReply(next.s.trace) == Some(reply) && next.isComplete == reply.IsComplete()
              && Extensions(next.s.trace) == Extensions(s.trace)
  {
    if !turn.responseHook.ok || !turn.renders || !RunTools(reply.calls, turn).Done? {
      return;
    }
    ToolsGiveOwnResults(reply.calls, turn);
    var left, records := ContextOr(turn.toolsLeft, l.context), OwnResults(reply.calls, turn);
    ToolsKeep(s.trace, left, reply, limit, turns);
    var ran := Emit(s.(conversation := turn.toolsLeft), ToolsRan(left, records));
    SaveAnswerKeeps(ran, Append(left, reply, records), turn, limit, turns);
  }

  lemma SaveAnswerKeeps(s: State, context: Context, turn: Turn, limit: Option<nat>, turns: seq<Turn>)
    requires Stopped(s, limit, turns) && Unsaved(s.trace) == Due(context)
    ensures match SaveAnswer(s, context, turn)
            case Err(at) => Stopped(at, limit, turns)
            case Ok(at) =>
              && Stopped(at, limit, turns) && Unsaved(at.trace).Clear?
              && Requests(at.trace) == Requests(s.trace) && Extensions(at.trace) == Extensions(s.trace)
              && LastReply(at.trace) == LastReply(s.trace)
  {
    var warned := if turn.toolFailureLimit then Then(s.trace, Interrupted(MaxToolFailures)) else s.trace;
    if turn.toolFailureLimit {
      NoticeKeeps(s.trace, Interrupted(MaxToolFailures), limit, turns);
    }
    SaveKeeps(warned, s.conversation.(context := Some(context)), limit, turns);
  }

  /** A turn goes on only when the two tool-name tests agree on every call of the answer, and
      then what it saves last is the answer followed by each call's own result, in order. */
  lemma AnswerIsSavedWithResults(l: Loop, s: State, reply: Reply, turn: Turn)
    requires Absorb(l, s, reply, turn).Ok?
    ensures var next := Absorb(l, s, reply, turn).value;
            var calls, n := reply.calls, |next.context| - |reply.calls|;
            && Agree(calls)
            && next.s.stored == next.s.conversation && next.s.conversation.context == Some(next.context)
            && n > 0 && next.context[..n - 1] == ContextOr(turn.toolsLeft, l.context)
            && next.context[n - 1] == AsMessage(reply)
            && (forall i :: 0 <= i < |calls| ==>
                  next.context[n + i] == Output(turn.hint((calls[i], turn.results(i)))))
  {
  }

  lemma ConcludeKeeps(l: Loop, turn: Turn, limit: Option<nat>, turns: seq<Turn>)
    requires Stopped(l.s, limit, turns) && Unsaved(l.s.trace).Clear? && Requests(l.s.trace) == l.count && 0 < l.count <= |turns|
    requires LastReply(l.s.trace).Some? && LastReply(l.s.trace).value.IsComplete() == l.isComplete
    ensures match Conclude(l, turn, limit)
            case Err(at) => Stopped(at, limit, turns)
            case Ok(next) => AtHead(next, limit, turns) && next.count == l.count
  {
    if OverLimit(l, limit) {
      NoticeKeeps(l.s.trace, Interrupted(MaxRequests), limit, turns);
      if turn.metrics.Some? {
        EndHookKeeps(Emit(SetMetrics(l.s, turn.metrics.value), Interrupted(MaxRequests)), turn, limit, turns);
      }
    } else if l.shouldYield && turn.metrics.Some? {
      EndHookKeeps(SetMetrics(l.s, turn.metrics.value), turn, limit, turns);
    }
  }

  lemma EndHookKeeps(s: State, turn: Turn, limit: Option<nat>, turns: seq<Turn>)
    requires Stopped(s, limit, turns) && Unsaved(s.trace).Clear?
    ensures match RunEndHook(s, turn)
            case Err(at) => Stopped(at, limit, turns)
            case Ok(at) =>
              && Stopped(at, limit, turns) && Unsaved(at.trace).Clear? && LastReply(at.trace) == LastReply(s.trace)
              && Requests(at.trace) == Requests(s.trace)
              && Extensions(at.trace)
                 == Extensions(s.trace) + if at.conversation.Len() > s.conversation.Len() then 1 else 0
  {
    var ended := EndHookRan(s.conversation.Len(), turn.endHook.left.Len());
    NoticeKeeps(s.trace, ended, limit, turns);
    SaveKeeps(Then(s.trace, ended), turn.endHook.left, limit, turns);
  }

  lemma {:induction false} IterateKeeps(l: Loop, turns: seq<Turn>, limit: Option<nat>)
    requires AtHead(l, limit, turns)
    ensures match Iterate(l, turns[l.count..], limit)
            case Err(at) => Stopped(at, limit, turns)
            case Ok(last) => AtHead(last, limit, turns) && last.shouldYield
    decreases |turns| - l.count
  {
    if !l.shouldYield && l.count < |turns| {
      var turn := turns[l.count];
      assert turns[l.count..][1..] == turns[l.count + 1..];
      AskKeeps(l, turn, limit, turns);
      var asked := Ask(l, turn);
      if asked.Ok? {
        AbsorbKeeps(l, asked.value, turn.reply.value, turn, limit, turns);
        var absorbed := Absorb(l, asked.value, turn.reply.value, turn);
        if absorbed.Ok? {
          ConcludeKeeps(absorbed.value, turn, limit, turns);
          var concluded := Conclude(absorbed.value, turn, limit);
          if concluded.Ok? {
            IterateKeeps(concluded.value, turns, limit);
          }
        }
      }
    }
  }

  // ----- the theorems -----

  function Final(p: Progress<State>): State {
    match p
    case Ok(s) => s
    case Err(s) => s
  }

  // What the loop and the final save leave before the guard is dropped.
  lemma BodyKeeps(s: State, context: Context, env: Env, limit: Option<nat>)
    requires s.trace == Empty
    ensures var r := Body(s, context, env, limit);
            var t := Final(r).trace;
            && Kept(t, limit, env.turns)
            && (r.Ok? ==>
                  && LastReply(t).Some? && !r.value.dirty && r.value.stored == r.value.conversation
                  && Announcements(t) == (if LastReply(t).value.IsComplete() then 1 else 0))
            && (r.Err? ==> Announcements(t) == 0)
  {
    var l := Iterate(Loop(s, context, 0, false, false), env.turns, limit);
    assert env.turns[0..] == env.turns;
    IterateKeeps(Loop(s, context, 0, false, false), env.turns, limit);
    if l.Ok? {
      var at := l.value.s;
      SaveKeeps(at.trace, at.conversation, limit, env.turns);
      AnnounceKeeps(Then(at.trace, Persisted(at.conversation)), limit, env.turns);
    }
  }

  // The run as a whole, with the save the guard may add at its end.
  lemma RunKeeps(s: State, env: Env, limit: Option<nat>)
    ensures var r := RunAll(s, env, limit);
            var t := Final(r).trace;
            && Kept(t, limit, env.turns)
            && (r.Ok? ==>
                  && LastReply(t).Some?
                  && Announcements(t) == (if LastReply(t).value.IsComplete() then 1 else 0))
            && (r.Err? ==> Announcements(t) == 0)
  {
    var installed := RunHook(s.(trace := Empty), env.startHook);
    if installed.Ok? {
      var context := ContextOr(s.conversation, []);
      BodyKeeps(installed.value, context, env, limit);
      SaveKeeps(Final(Body(installed.value, context, env, limit)).trace, installed.value.conversation, limit, env.turns);
    }
  }

  /** Every run, finished, failed or cut short at any turn: each model request carries exactly
      the context that was last saved; when the next request or the completion goes out, exactly
      what the hooks left with the last answer and its tools' outputs behind it has been saved,
      each output being the call's own result; and with a request limit M there are at most
      max(1, M) requests plus one for every time the End hook extended the run. */
  lemma EveryRunKeeps(s: State, env: Env, limit: Option<nat>)
    ensures var t := Final(RunAll(s, env, limit)).trace;
            && WriteAhead(t)
            && AnswersSaved(t)
            && ToolsAnswered(t, env.turns)
            && (limit.Some? ==> Requests(t) <= Max(1, limit.value) + Extensions(t))
  {
    RunKeeps(s, env, limit);
  }

  /** A run that ends well announces completion once if its last answer was a stop without tool
      calls and never otherwise; a run that fails announces nothing. */
  lemma CompletionIsAnnounced(s: State, env: Env, limit: Option<nat>)
    ensures var r := RunAll(s, env, limit);
            var t := Final(r).trace;
            && (r.Ok? ==>
                  LastReply(t).Some? &&
                  Announcements(t) == if LastReply(t).value.stop && LastReply(t).value.calls == [] then 1 else 0)
            && (r.Err? ==> Announcements(t) == 0)
  {
    RunKeeps(s, env, limit);
  }

  // The store holds what the trace saved last, or what it held before.
  predicate Mirrors(s: State, was: Conversation) {
    s.stored == if LastSaved(s.trace).Some? then LastSaved(s.trace).value else was
  }

  lemma AskMirrors(l: Loop, turn: Turn, was: Conversation)
    requires Mirrors(l.s, was)
    ensures Mirrors(Final(Ask(l, turn)), was)
  {
    var saving := SetContext(l.s, l.context).conversation;
    assert LastSaved(Then(Then(l.s.trace, Persisted(saving)), Requested(l.context))) == Some(saving);
  }

  lemma AbsorbMirrors(l: Loop, s: State, reply: Reply, turn: Turn, was: Conversation)
    requires Mirrors(s, was)
    ensures match Absorb(l, s, reply, turn)
            case Err(at) => Mirrors(at, was)
            case Ok(next) => Mirrors(next.s, was)
  {
  }

  lemma ConcludeMirrors(l: Loop, turn: Turn, limit: Option<nat>, was: Conversation)
    requires Mirrors(l.s, was)
    ensures match Conclude(l, turn, limit)
            case Err(at) => Mirrors(at, was)
            case Ok(next) => Mirrors(next.s, was)
  {
  }

  lemma {:induction false} IterateMirrors(l: Loop, turns: seq<Turn>, limit: Option<nat>, was: Conversation)
    requires Mirrors(l.s, was)
    ensures match Iterate(l, turns, limit)
            case Err(at) => Mirrors(at, was)
            case Ok(last) => Mirrors(last.s, was)
    decreases |turns|
  {
    if !l.shouldYield && turns != [] {
      AskMirrors(l, turns[0], was);
      var asked := Ask(l, turns[0]);
      if asked.Ok? {
        AbsorbMirrors(l, asked.value, turns[0].reply.value, turns[0], was);
        var absorbed := Absorb(l, asked.value, turns[0].reply.value, turns[0]);
        if absorbed.Ok? {
          ConcludeMirrors(absorbed.value, turns[0], limit, was);
          if Conclude(absorbed.value, turns[0], limit).Ok? {
            IterateMirrors(Conclude(absorbed.value, turns[0], limit).value, turns[1..], limit, was);
          }
        }
      }
    }
  }

  /** The saves of the trace are all that reaches the store: at the end of any run, well or not,
      it holds the conversation saved last, or what it held before if none was. */
  lemma StoreHoldsLastSave(s: State, env: Env, limit: Option<nat>)
    ensures Mirrors(Final(RunAll(s, env, limit)), s.stored)
  {
    var installed := RunHook(s.(trace := Empty), env.startHook);
    if installed.Ok? {
      IterateMirrors(Loop(installed.value, ContextOr(s.conversation, []), 0, false, false), env.turns, limit, s.stored);
    }
  }

  // One run: the guard writes its old conversation over the final save when it saves at all.
  lemma FinalSave(s: State, env: Env, limit: Option<nat>)
    requires RunAll(s, env, limit).Ok?
    ensures var done := RunAll(s, env, limit).value;
            && !done.dirty
            && done.stored == if s.dirty && env.guardSaves then env.startHook.left else done.conversation
  {
    var installed := RunHook(s.(trace := Empty), env.startHook);
    BodyKeeps(installed.value, ContextOr(s.conversation, []), env, limit);
  }

  ghost predicate StoredAtEnd(s: State, env: Env, limit: Option<nat>) {
    match RunAll(s, env, limit)
    case Ok(done) => done.stored == done.conversation
    case Err(_) => true
  }

  /** Every run that ends well leaves the stored conversation equal to the one in memory exactly
      when the orchestrator is clean at the start. */
  lemma FinalSaveIff(s: State, limit: Option<nat>)
    ensures (forall env :: StoredAtEnd(s, env, limit)) <==> !s.dirty
  {
    if s.dirty {
      GoodRun(s, limit);
      FinalSave(s, GOOD_RUN, limit);
      assert !StoredAtEnd(s, GOOD_RUN, limit);
    } else {
      forall env
        ensures StoredAtEnd(s, env, limit)
      {
        if RunAll(s, env, limit).Ok? {
          FinalSave(s, env, limit);
        }
      }
    }
  }

  /** The guard makes a difference exactly when the orchestrator is dirty at the start: from a
      clean start, the ordinary one, no failure or cancellation of any run is made up for. */
  lemma GuardActsIff(s: State, limit: Option<nat>)
    ensures (forall env: Env, saves :: RunAll(s, env.(guardSaves := saves), limit) == RunAll(s, env, limit)) <==> !s.dirty
  {
    if s.dirty {
      GoodRun(s, limit);
      FinalSave(s, GOOD_RUN, limit);
      FinalSave(s, GOOD_RUN.(guardSaves := false), limit);
      assert RunAll(s, GOOD_RUN.(guardSaves := false), limit) != RunAll(s, GOOD_RUN, limit);
    }
  }

  // ----- a stale store -----

  const ASKED := Conversation(Some([Plain("hello")]), "", "")

  function Settled(context: Context): Hook {
    Hook(true, Conversation(Some(context), "", ""))
  }

  const HI := Reply("hi", [], true, false)

  // A turn in which everything works and the model answers and stops.
  const GOOD_TURN := Turn(true, Settled([Plain("hello")]), Some(HI),
    Settled([Plain("hello")]), _ => "", _ => true, ASKED, (record: Record) => record.1, true,
    false, true, true, true, Some(""), Settled([Plain("hello"), Answer("hi", [])]), true)

  const GOOD_RUN := Env(Hook(true, ASKED), [GOOD_TURN], true, true, true)

  // From any start the good run ends well and has the answer in memory.
  lemma GoodRun(s: State, limit: Option<nat>)
    ensures var r := RunAll(s, GOOD_RUN, limit);
            r.Ok? && r.value.conversation != ASKED && Holds(r.value.conversation, HI)
  {
    var installed := s.(trace := Empty, conversation := ASKED);
    var l := Loop(installed, ContextOr(s.conversation, []), 0, false, false);
    GoodTurn(l, limit);
    var step := TurnStep(l, GOOD_TURN, limit);
    assert [GOOD_TURN][1..] == [];
    assert Iterate(l, [GOOD_TURN], limit) == Iterate(step.value, [], limit) == step;
  }

  lemma GoodTurn(l: Loop, limit: Option<nat>)
    ensures var step := TurnStep(l, GOOD_TURN, limit);
            && step.Ok? && step.value.shouldYield && step.value.isComplete
            && step.value.s.conversation != ASKED && Holds(step.value.s.conversation, HI)
  {
    assert RunTools([], GOOD_TURN) == Done([]);
    assert GOOD_TURN.endHook.left.context.value[1] == AsMessage(HI);
  }

  /** A failed save leaves the orchestrator dirty; when it is run again and all goes well, the
      answer is saved and then lost from the store. */
  lemma SecondRunLosesAnswer()
    ensures var failing := GOOD_RUN.(turns := [GOOD_TURN.(savesContext := false)]);
            var first := RunAll(State(ASKED, false, ASKED, Empty), failing, None);
            var second := RunAll(Final(first), GOOD_RUN, None);
            && first.Err? && first.state.dirty
            && second.Ok? && Holds(second.value.conversation, HI) && second.value.stored == ASKED && !Holds(ASKED, HI)
  {
    var bad := GOOD_TURN.(savesContext := false);
    var head := Loop(State(ASKED, false, ASKED, Empty), [Plain("hello")], 0, false, false);
    assert TurnStep(head, bad, None).Err?;
    assert Iterate(head, [bad], None) == TurnStep(head, bad, None);
    var first := RunAll(State(ASKED, false, ASKED, Empty), GOOD_RUN.(turns := [bad]), None);
    GoodRun(Final(first), None);
    FinalSave(Final(first), GOOD_RUN, None);
  }

  // ----- what the guard cannot save -----

  // The model answers with this text, and saving the answer fails.
  function LosingRun(before: Context, text: string, guardSaves: bool): Env {
    var left := Conversation(Some(before + [Plain("x")]), "", "");
    Env(Settled(before), [GOOD_TURN.(reply := Some(HI.(text := text)), toolsLeft := left, savesAnswer := false)],
        true, true, guardSaves)
  }

  /** From every start, clean or dirty, there are runs that fail with the answer in memory only,
      whether or not the guard can save: the store is left with the context the run began with,
      so it has the answer only if that context had an equal one. */
  lemma FailedRunLosesAnswer(s: State, limit: Option<nat>, text: string, saves: bool)
    ensures var before, reply := ContextOr(s.conversation, []), HI.(text := text);
            var r := RunAll(s, LosingRun(before, text, saves), limit);
            && r.Err? && r.state.dirty
            && r.state.conversation.context == Some(before + [Plain("x"), AsMessage(reply)])
            && r.state.stored.context == Some(before)
            && (Holds(r.state.stored, reply) <==> AsMessage(reply) in before)
  {
    var before, reply := ContextOr(s.conversation, []), HI.(text := text);
    var env := LosingRun(before, text, saves);
    var l := Loop(s.(trace := Empty, conversation := env.startHook.left), before, 0, false, false);
    LosingTurn(l, text, saves);
    assert Iterate(l, env.turns, limit) == TurnStep(l, env.turns[0], limit);
  }

  lemma LosingTurn(l: Loop, text: string, saves: bool)
    ensures var step := TurnStep(l, LosingRun(l.context, text, saves).turns[0], None);
            && step.Err? && step.state.dirty && step.state.stored.context == Some(l.context)
            && step.state.conversation.context == Some(l.context + [Plain("x"), AsMessage(HI.(text := text))])
  {
    var turn := LosingRun(l.context, text, saves).turns[0];
    assert RunTools([], turn) == Done([]);
    assert Append(l.context + [Plain("x")], HI.(text := text), [])
        == l.context + [Plain("x"), AsMessage(HI.(text := text))];
  }

  /** So the guard's promise, that a run that does not end well leaves nothing unsaved, holds from
      no start at all. */
  lemma GuardPromiseNeverHolds(s: State, limit: Option<nat>)
    ensures exists env: Env ::
              env.guardSaves && RunAll(s, env, limit).Err?
              && RunAll(s, env, limit).state.stored != RunAll(s, env, limit).state.conversation
  {
    var before := ContextOr(s.conversation, []);
    var env := LosingRun(before, "hi", true);
    FailedRunLosesAnswer(s, limit, "hi", true);
    assert |RunAll(s, env, limit).state.conversation.context.value| == |before| + 2;
  }
}
