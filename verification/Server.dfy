/**
 The connection loop and the agent handlers of `crates/forge3d/src/server.rs`, on the frames
 and the registry. JSON is a `Codec`: any function from payload bytes to an envelope and any
 from responses to payload bytes. The server has no drift detector, as when it is created.
 */
module Servers {

  import opened Prelude
  import opened Frames
  import R = Registries

  // The fields a handler reads, each None when absent or of the wrong JSON type.
  datatype Params = Params(
    agentId: Option<string>, pid: Option<nat>, lane: Option<string>, promptExcerpt: Option<string>, now: Option<int>)

  // The method names the server knows; any other name is carried as it is.
  datatype Method =
    | AgentRegister
    | AgentHeartbeat
    | AgentDeregister
    | AgentList
    | DriftObserve
    | DriftOverride
    | Unknown(name: string)

  datatype Request = Request(call: Method, id: Option<string>, params: Params)

  datatype Envelope = Envelope(version2: bool, request: Request)

  datatype Value = Agent(info: R.AgentInfo) | Removed(removed: bool) | Agents(agents: seq<R.AgentInfo>)

  datatype Problem =
    | MissingAgentId
    | MissingOrInvalidPid
    | DriftNotConfigured
    | UnknownMethod(name: string)
    | UnknownAgent(agentId: string)

  datatype Response = Success(result: Value, id: string) | Error(code: int, problem: Problem, id: string)

  datatype Codec = Codec(parse: Bytes -> Option<Envelope>, render: Response -> Bytes)

  // Accepts an envelope whose version field is "2.0".
  function ParseRequest(codec: Codec, payload: Bytes): Option<Request> {
    var v := codec.parse(payload);
    if v.Some? && v.value.version2 then Some(v.value.request) else None
  }

  function ErrorCode(problem: Problem): int {
    if problem.UnknownAgent? then -32010 else -32600
  }

  function Failure(problem: Problem, id: string): Response {
    Error(ErrorCode(problem), problem, id)
  }

  // What is wrong with a request before the registry is looked at.
  function Complaint(req: Request): Option<Problem> {
    match req.call
    case AgentRegister =>
      if req.params.agentId.None? then Some(MissingAgentId)
      else if req.params.pid.None? then Some(MissingOrInvalidPid)
      else None
    case AgentHeartbeat => if req.params.agentId.None? then Some(MissingAgentId) else None
    case AgentDeregister => if req.params.agentId.None? then Some(MissingAgentId) else None
    case AgentList => None
    case Unknown(name) => Some(UnknownMethod(name))
    case _ => Some(DriftNotConfigured)
  }

  const DEFAULT_LANE := "building"

  // The registry event a request stands for, when it stands for one.
  function EventOf(req: Request, now: int): Option<R.Event> {
    if Complaint(req).Some? then None
    else match req.call
      case AgentRegister =>
        var lane := if req.params.lane.Some? then req.params.lane.value else DEFAULT_LANE;
        Some(R.Upsert(req.params.agentId.value, req.params.pid.value % U32, lane, req.params.promptExcerpt, now))
      case AgentHeartbeat => Some(R.Heartbeat(req.params.agentId.value, now))
      case AgentDeregister => Some(R.Deregister(req.params.agentId.value, now))
      case _ => None
  }

  function AfterRequest(m: R.Table, req: Request, now: int): R.Table {
    var e := EventOf(req, now);
    if e.Some? then R.Step(m, e.value) else m
  }

  // The responses a request may get (a listing may order ties in any way).
  ghost predicate Answers(m: R.Table, req: Request, id: string, now: int, resp: Response) {
    if Complaint(req).Some? then resp == Failure(Complaint(req).value, id)
    else match req.call
      case AgentRegister => resp == Success(Agent(AfterRequest(m, req, now)[req.params.agentId.value]), id)
      case AgentHeartbeat =>
        var agent := req.params.agentId.value;
        resp == if agent in m then Success(Agent(AfterRequest(m, req, now)[agent]), id)
                else Failure(UnknownAgent(agent), id)
      case AgentDeregister => resp == Success(Removed(req.params.agentId.value in m), id)
      case _ =>
        && resp.Success? && resp.id == id && resp.result.Agents?
        && R.IsListing(resp.result.agents, m, if req.params.now.Some? then req.params.now.value else now)
  }

  // The requests of a stream up to the first payload that does not parse.
  function Requests(codec: Codec, frames: seq<Bytes>): seq<Request> {
    if frames == [] then []
    else
      var req := ParseRequest(codec, frames[0]);
      if req.None? then [] else [req.value] + Requests(codec, frames[1..])
  }

  // The requests that carry an id.
  function Calls(reqs: seq<Request>): seq<Request> {
    if reqs == [] then []
    else Calls(reqs[..|reqs| - 1]) + if reqs[|reqs| - 1].id.Some? then [reqs[|reqs| - 1]] else []
  }

  // The registry after serving calls, the k-th of them when the clock reads clock(k).
  function Served(m: R.Table, calls: seq<Request>, clock: nat -> int): R.Table {
    if calls == [] then m
    else
      var n := |calls| - 1;
      AfterRequest(Served(m, calls[..n], clock), calls[n], clock(n))
  }

  // One response per call, in order, each the answer to its call.
  ghost predicate Replies(m: R.Table, calls: seq<Request>, clock: nat -> int, resps: seq<Response>) {
    && |resps| == |calls|
    && (calls != [] ==>
          var n := |calls| - 1;
          && Replies(m, calls[..n], clock, resps[..n])
          && calls[n].id.Some?
          && Answers(Served(m, calls[..n], clock), calls[n], calls[n].id.value, clock(n), resps[n]))
  }

  lemma {:induction false} RepliesCarryIds(m: R.Table, calls: seq<Request>, clock: nat -> int, resps: seq<Response>)
    requires Replies(m, calls, clock, resps)
    ensures forall k :: 0 <= k < |resps| ==> Some(resps[k].id) == calls[k].id
  {
    if calls != [] {
      RepliesCarryIds(m, calls[..|calls| - 1], clock, resps[..|calls| - 1]);
    }
  }

  // ----- what each request does and says -----

  /** A heartbeat renews the lease of a registered agent from now on and changes nothing else. */
  lemma HeartbeatRenews(m: R.Table, req: Request, agent: string, now: int, t: int)
    requires req.call == AgentHeartbeat && req.params.agentId == Some(agent)
    ensures var after := AfterRequest(m, req, now);
            && (agent !in m ==> after == m)
            && (agent in m ==>
                  && after == m[agent := m[agent].(lastHeartbeat := now)]
                  && (R.Listed(after, agent, t) <==> t < now + 60_000))
  {
  }

  /** A well-formed registration leaves an entry with the given process (cut to 32 bits), lane
      ("building" when none is given) and excerpt; a new one has two leases ahead of it, one that
      was there keeps its registration time and has one. No other entry changes. */
  lemma RegisterEnters(m: R.Table, req: Request, agent: string, pid: nat, now: int, t: int)
    requires req.call == AgentRegister && req.params.agentId == Some(agent) && req.params.pid == Some(pid)
    ensures var after := AfterRequest(m, req, now);
            && agent in after && after - {agent} == m - {agent}
            && after[agent].agentId == (if agent in m then m[agent].agentId else agent)
            && after[agent].pid == pid % 0x1_0000_0000
            && after[agent].lane == (if req.params.lane.Some? then req.params.lane.value else "building")
            && after[agent].promptExcerpt == req.params.promptExcerpt
            && after[agent].registeredAt == (if agent in m then m[agent].registeredAt else now)
            && (R.Listed(after, agent, t) <==> t < now + if agent in m then 60_000 else 120_000)
  {
  }

  /** A deregistration removes exactly its agent. */
  lemma DeregisterRemoves(m: R.Table, req: Request, agent: string, now: int)
    requires req.call == AgentDeregister && req.params.agentId == Some(agent)
    ensures AfterRequest(m, req, now) == m - {agent}
  {
  }

  /** Every other request leaves the registry alone: any without an agent, a registration without
      a process, a listing, and what the server does not know or is not set up for. */
  lemma OthersChangeNothing(m: R.Table, req: Request, now: int)
    requires || req.call !in {AgentRegister, AgentHeartbeat, AgentDeregister}
             || req.params.agentId.None?
             || (req.call == AgentRegister && req.params.pid.None?)
    ensures AfterRequest(m, req, now) == m
  {
  }

  /** A request that is not well formed is answered with an error: code -32600 for a missing
      field, an unknown method, or drift without a detector, and -32010 for a heartbeat of an
      unknown agent. */
  lemma ErrorsSay(m: R.Table, req: Request, id: string, now: int, resp: Response)
    requires Answers(m, req, id, now, resp)
    ensures req.call in {AgentRegister, AgentHeartbeat, AgentDeregister} && req.params.agentId.None? ==>
              resp == Error(-32600, MissingAgentId, id)
    ensures req.call == AgentRegister && req.params.agentId.Some? && req.params.pid.None? ==>
              resp == Error(-32600, MissingOrInvalidPid, id)
    ensures req.call == AgentHeartbeat && req.params.agentId.Some? && req.params.agentId.value !in m ==>
              resp == Error(-32010, UnknownAgent(req.params.agentId.value), id)
    ensures req.call.Unknown? ==> resp == Error(-32600, UnknownMethod(req.call.name), id)
    ensures req.call in {DriftObserve, DriftOverride} ==> resp == Error(-32600, DriftNotConfigured, id)
  {
  }

  /** A request that is well formed is answered with its result: the agent's new entry, whether
      the agent was there to remove, or the listing at the time asked for, or at the present. */
  lemma ResultsSay(m: R.Table, req: Request, id: string, now: int, resp: Response)
    requires Answers(m, req, id, now, resp)
    ensures req.call == AgentRegister && req.params.agentId.Some? && req.params.pid.Some? ==>
              var agent, after := req.params.agentId.value, AfterRequest(m, req, now);
              agent in after && resp == Success(Agent(after[agent]), id)
    ensures req.call == AgentHeartbeat && req.params.agentId.Some? && req.params.agentId.value in m ==>
              resp == Success(Agent(m[req.params.agentId.value].(lastHeartbeat := now)), id)
    ensures req.call == AgentDeregister && req.params.agentId.Some? ==>
              resp == Success(Removed(req.params.agentId.value in m), id)
    ensures req.call == AgentList ==>
              && resp.Success? && resp.id == id && resp.result.Agents?
              && R.IsListing(resp.result.agents, m, if req.params.now.Some? then req.params.now.value else now)
  {
  }

  /** Which requests of a stream are served: those of the frames before the first that does not
      parse or is not of version 2.0. */
  lemma {:induction false} ServedUpToMalformed(codec: Codec, frames: seq<Bytes>)
    ensures var reqs := Requests(codec, frames);
            && |reqs| <= |frames|
            && (forall k :: 0 <= k < |reqs| ==> codec.parse(frames[k]) == Some(Envelope(true, reqs[k])))
            && (|reqs| < |frames| ==>
                  var v := codec.parse(frames[|reqs|]); v.None? || !v.value.version2)
    decreases |frames|
  {
    if frames != [] && ParseRequest(codec, frames[0]).Some? {
      ServedUpToMalformed(codec, frames[1..]);
      var reqs, others := Requests(codec, frames), Requests(codec, frames[1..]);
      forall k | 0 <= k < |reqs|
        ensures codec.parse(frames[k]) == Some(Envelope(true, reqs[k]))
      {
        if k > 0 {
          assert reqs[k] == others[k - 1] && frames[k] == frames[1..][k - 1];
        }
      }
    }
  }

  // Of requests that all carry an id, every one is a call.
  lemma {:induction false} AllAreCalls(reqs: seq<Request>)
    requires forall k :: 0 <= k < |reqs| ==> reqs[k].id.Some?
    ensures Calls(reqs) == reqs
  {
    if reqs != [] {
      AllAreCalls(reqs[..|reqs| - 1]);
      assert reqs == reqs[..|reqs| - 1] + [reqs[|reqs| - 1]];
    }
  }

  function Rendered(codec: Codec, resps: seq<Response>): seq<Bytes> {
    seq(|resps|, i requires 0 <= i < |resps| => codec.render(resps[i]))
  }

  // ----- the server -----

  class Server {
    const registry: R.Registry

    constructor ()
      ensures fresh(registry) && registry.inner == map[]
    {
      registry := new R.Registry();
    }

    method Dispatch(req: Request, now: int) returns (resp: Response)
      requires req.id.Some? && R.WellKeyed(registry.inner)
      modifies registry
      ensures registry.inner == AfterRequest(old(registry.inner), req, now)
      ensures R.WellKeyed(registry.inner)
      ensures Answers(old(registry.inner), req, req.id.value, now, resp)
    {
      var id, p := req.id.value, req.params;
      match req.call
      case AgentRegister =>
        if p.agentId.None? {
          return Failure(MissingAgentId, id);
        }
        if p.pid.None? {
          return Failure(MissingOrInvalidPid, id);
        }
        var lane := DEFAULT_LANE;
        if p.lane.Some? {
          lane := p.lane.value;
        }
        var info := registry.Upsert(p.agentId.value, p.pid.value % U32, lane, p.promptExcerpt, now);
        return Success(Agent(info), id);
      case AgentHeartbeat =>
        if p.agentId.None? {
          return Failure(MissingAgentId, id);
        }
        var info := registry.Heartbeat(p.agentId.value, now);
        if info.None? {
          return Failure(UnknownAgent(p.agentId.value), id);
        }
        return Success(Agent(info.value), id);
      case AgentDeregister =>
        if p.agentId.None? {
          return Failure(MissingAgentId, id);
        }
        var removed := registry.Deregister(p.agentId.value);
        return Success(Removed(removed), id);
      case AgentList =>
        var at := now;
        if p.now.Some? {
          at := p.now.value;
        }
        var agents := registry.ListActive(at);
        return Success(Agents(agents), id);
      case Unknown(name) => return Failure(UnknownMethod(name), id);
      case _ => return Failure(DriftNotConfigured, id);
    }

    // Dispatch one call and write its response.
    method Reply(req: Request, writer: Writer, codec: Codec, now: int) returns (resp: Response)
      requires req.id.Some? && R.WellKeyed(registry.inner)
      modifies registry, writer
      ensures R.WellKeyed(registry.inner)
      ensures registry.inner == AfterRequest(old(registry.inner), req, now)
      ensures Answers(old(registry.inner), req, req.id.value, now, resp)
      ensures writer.written == old(writer.written) + Encode(codec.render(resp))
    {
      resp := Dispatch(req, now);
      writer.WriteFrame(codec.render(resp));
    }

    // Read a frame, parse it, and answer it if it is a call.
    method ServeNext(reader: Reader, writer: Writer, codec: Codec, now: int)
      returns (d: Decoded, req: Option<Request>, resp: Option<Response>)
      requires R.WellKeyed(registry.inner)
      modifies registry, reader, writer
      ensures R.WellKeyed(registry.inner)
      ensures d == Decode(old(reader.rest)) && (d.Frame? ==> reader.rest == d.rest && |d.rest| < |old(reader.rest)|)
      ensures req == if d.Frame? then ParseRequest(codec, d.payload) else None
      ensures resp.Some? <==> req.Some? && req.value.id.Some?
      ensures resp.Some? ==>
                && registry.inner == AfterRequest(old(registry.inner), req.value, now)
                && Answers(old(registry.inner), req.value, req.value.id.value, now, resp.value)
                && writer.written == old(writer.written) + Encode(codec.render(resp.value))
      ensures resp.None? ==> registry.inner == old(registry.inner) && writer.written == old(writer.written)
    {
      d := reader.DecodeFrame();
      req, resp := None, None;
      if d.Frame? {
        req := ParseRequest(codec, d.payload);
        if req.Some? && req.value.id.Some? {
          var r := Reply(req.value, writer, codec, now);
          resp := Some(r);
        }
      }
    }

    /** Over every input whatever: the requests served are those up to the first frame or payload
        that is malformed, and what is written is one frame for each of them that carries an id,
        in order, holding the answer to it. Notifications leave no trace. */
    method HandleConnection(reader: Reader, writer: Writer, codec: Codec, clock: nat -> int)
      returns (ok: bool, ghost resps: seq<Response>)
      requires R.WellKeyed(registry.inner)
      modifies registry, reader, writer
      ensures R.WellKeyed(registry.inner)
      ensures var whole := DecodeAll(old(reader.rest));
              && UpTo(old(registry.inner), clock, Requests(codec, whole.frames), resps, registry.inner)
              && (ok <==> whole.end == Eof && |Requests(codec, whole.frames)| == |whole.frames|)
      ensures writer.written == old(writer.written) + EncodeAll(Rendered(codec, resps))
    {
      ghost var start, input, before := registry.inner, reader.rest, writer.written;
      ghost var done: seq<Request>, left := [], input;
      resps := [];
      var calls := 0;
      while true
        invariant R.WellKeyed(registry.inner)
        invariant reader.rest == left && Ahead(codec, input, done, left)
        invariant calls == |resps| && UpTo(start, clock, done, resps, registry.inner)
        invariant writer.written == before + EncodeAll(Rendered(codec, resps))
        decreases |left|
      {
        ghost var table := registry.inner;
        var d, req, resp := ServeNext(reader, writer, codec, clock(calls));
        NothingAhead(codec, input, done, left);
        if !d.Frame? {
          return d == Eof, resps;
        }
        OneMoreFrame(codec, input, done, left, d);
        if req.None? {
          return false, resps;
        }
        CallsSnoc(done, req.value);
        if resp.Some? {
          AnswerAdvances(codec, start, clock, done, resps, table, req.value, resp.value, before);
          resps, calls := resps + [resp.value], calls + 1;
        }
        done, left := done + [req.value], d.rest;
      }
    }
  }

  lemma NothingAhead(codec: Codec, input: Bytes, done: seq<Request>, rest: Bytes)
    requires Ahead(codec, input, done, rest)
    ensures !Decode(rest).Frame? ==>
              var whole := DecodeAll(input);
              Requests(codec, whole.frames) == done && |whole.frames| == |done| && whole.end == Decode(rest)
  {
    assert done + [] == done;
  }

  // After the requests `done`, the stream `rest` is what is left of `input`.
  ghost predicate Ahead(codec: Codec, input: Bytes, done: seq<Request>, rest: Bytes) {
    var whole, left := DecodeAll(input), DecodeAll(rest);
    && Requests(codec, whole.frames) == done + Requests(codec, left.frames)
    && |whole.frames| == |done| + |left.frames|
    && whole.end == left.end
  }

  lemma OneMoreFrame(codec: Codec, input: Bytes, done: seq<Request>, rest: Bytes, d: Decoded)
    requires Ahead(codec, input, done, rest) && d == Decode(rest) && d.Frame?
    ensures var req := ParseRequest(codec, d.payload);
            if req.Some? then Ahead(codec, input, done + [req.value], d.rest)
            else Requests(codec, DecodeAll(input).frames) == done && |done| < |DecodeAll(input).frames|
  {
    var req := ParseRequest(codec, d.payload);
    var tail := DecodeAll(d.rest).frames;
    assert DecodeAll(rest).frames == [d.payload] + tail;
    assert DecodeAll(rest).frames[1..] == tail;
    if req.Some? {
      assert done + ([req.value] + Requests(codec, tail)) == done + [req.value] + Requests(codec, tail);
    } else {
      assert done + [] == done;
    }
  }

  lemma CallsSnoc(done: seq<Request>, req: Request)
    ensures Calls(done + [req]) == if req.id.Some? then Calls(done) + [req] else Calls(done)
  {
    assert (done + [req])[..|done|] == done;
    assert Calls(done) + [] == Calls(done);
  }

  // The table and the responses once the requests `done` are served: notifications are skipped.
  ghost predicate UpTo(m: R.Table, clock: nat -> int, done: seq<Request>, resps: seq<Response>, table: R.Table) {
    table == Served(m, Calls(done), clock) && Replies(m, Calls(done), clock, resps)
  }

  lemma AnswerAdvances(
    codec: Codec, m: R.Table, clock: nat -> int, done: seq<Request>, resps: seq<Response>,
    table: R.Table, req: Request, resp: Response, before: Bytes)
    requires UpTo(m, clock, done, resps, table)
    requires req.id.Some? && Answers(table, req, req.id.value, clock(|resps|), resp)
    ensures UpTo(m, clock, done + [req], resps + [resp], AfterRequest(table, req, clock(|resps|)))
    ensures before + EncodeAll(Rendered(codec, resps)) + Encode(codec.render(resp))
            == before + EncodeAll(Rendered(codec, resps + [resp]))
  {
    CallsSnoc(done, req);
    OneMoreReply(m, Calls(done), clock, resps, req, resp);
    RenderedSnoc(codec, resps, resp);
  }

  lemma OneMoreReply(m: R.Table, calls: seq<Request>, clock: nat -> int, resps: seq<Response>, req: Request, resp: Response)
    requires Replies(m, calls, clock, resps) && req.id.Some?
    requires Answers(Served(m, calls, clock), req, req.id.value, clock(|calls|), resp)
    ensures Replies(m, calls + [req], clock, resps + [resp])
    ensures Served(m, calls + [req], clock) == AfterRequest(Served(m, calls, clock), req, clock(|calls|))
  {
    assert (calls + [req])[..|calls|] == calls;
    assert (resps + [resp])[..|resps|] == resps;
  }

  lemma {:induction false} EncodeAllSnoc(payloads: seq<Bytes>, p: Bytes)
    ensures EncodeAll(payloads + [p]) == EncodeAll(payloads) + Encode(p)
    decreases |payloads|
  {
    if payloads == [] {
      assert [p][1..] == [];
    } else {
      EncodeAllSnoc(payloads[1..], p);
      assert (payloads + [p])[1..] == payloads[1..] + [p];
      Reassociate(Encode(payloads[0]), EncodeAll(payloads[1..]), Encode(p));
    }
  }

  lemma Reassociate(a: Bytes, b: Bytes, c: Bytes)
    ensures a + (b + c) == a + b + c
  {
  }

  lemma RenderedSnoc(codec: Codec, resps: seq<Response>, resp: Response)
    ensures EncodeAll(Rendered(codec, resps + [resp])) == EncodeAll(Rendered(codec, resps)) + Encode(codec.render(resp))
  {
    EncodeAllSnoc(Rendered(codec, resps), codec.render(resp));
    assert Rendered(codec, resps + [resp]) == Rendered(codec, resps) + [codec.render(resp)];
  }

  // ----- bytes to responses -----

  // Well-formed request payloads within the frame limit.
  ghost predicate Carry(codec: Codec, payloads: seq<Bytes>, reqs: seq<Request>) {
    && |payloads| == |reqs| && AllFit(payloads)
    && forall k :: 0 <= k < |reqs| ==> ParseRequest(codec, payloads[k]) == Some(reqs[k])
  }

  /** From bytes to responses: a stream of well-formed request frames is served whole; the client
      reads back exactly one payload per request that carries an id, in order, each rendered
      from a response with that request's id, if and only if every one of them is within the
      frame limit (the server does not check that, so a long enough listing breaks it). */
  lemma BytesToResponses(codec: Codec, payloads: seq<Bytes>, reqs: seq<Request>, m: R.Table, clock: nat -> int, resps: seq<Response>)
    requires Carry(codec, payloads, reqs)
    requires Replies(m, Calls(Requests(codec, DecodeAll(EncodeAll(payloads)).frames)), clock, resps)
    ensures Requests(codec, DecodeAll(EncodeAll(payloads)).frames) == reqs
    ensures |resps| == |Calls(reqs)|
    ensures forall k :: 0 <= k < |resps| ==> Some(resps[k].id) == Calls(reqs)[k].id
    ensures DecodeAll(EncodeAll(Rendered(codec, resps))) == Stream(Rendered(codec, resps), Eof)
            <==> forall k :: 0 <= k < |resps| ==> |codec.render(resps[k])| <= MAX_FRAME_BYTES
  {
    StreamRoundTripIff(payloads);
    AllParse(codec, payloads, reqs);
    RepliesCarryIds(m, Calls(reqs), clock, resps);
    StreamRoundTripIff(Rendered(codec, resps));
    assert forall k :: 0 <= k < |resps| ==> Rendered(codec, resps)[k] == codec.render(resps[k]);
  }

  lemma {:induction false} AllParse(codec: Codec, payloads: seq<Bytes>, reqs: seq<Request>)
    requires Carry(codec, payloads, reqs)
    ensures Requests(codec, payloads) == reqs
    decreases |payloads|
  {
    if payloads != [] {
      AllParse(codec, payloads[1..], reqs[1..]);
      assert reqs == [reqs[0]] + reqs[1..];
    }
  }

  /** Notifications change nothing: with any of them dropped from or added to a stream of
      requests, the calls are the same, and so are the registry and the possible replies. */
  lemma {:induction false} NotificationsAreSilent(before: seq<Request>, notification: Request, after: seq<Request>)
    requires notification.id.None?
    ensures Calls(before + [notification] + after) == Calls(before + after)
  {
    if after == [] {
      assert (before + [notification] + after)[..|before|] == before;
      assert before + after == before;
    } else {
      var init := after[..|after| - 1];
      NotificationsAreSilent(before, notification, init);
      assert (before + [notification] + after)[..|before| + |after|] == before + [notification] + init;
      assert (before + after)[..|before| + |after| - 1] == before + init;
    }
  }

  /** The registry a connection leaves is its calls replayed as registry events. */
  lemma {:induction false} ServedReplaysEvents(es: seq<R.Event>, calls: seq<Request>, clock: nat -> int)
    ensures Served(R.Run(es), calls, clock) == R.Run(es + EventsOf(calls, clock))
  {
    if calls == [] {
      assert es + [] == es;
    } else {
      var n := |calls| - 1;
      ServedReplaysEvents(es, calls[..n], clock);
      var pre := EventsOf(calls[..n], clock);
      assert pre + [] == pre;
      match EventOf(calls[n], clock(n))
      case None =>
      case Some(e) =>
        R.RunSnoc(es + pre, e);
        assert es + (pre + [e]) == es + pre + [e];
    }
  }

  function EventsOf(calls: seq<Request>, clock: nat -> int): seq<R.Event> {
    if calls == [] then []
    else
      var n := |calls| - 1;
      var e := EventOf(calls[n], clock(n));
      EventsOf(calls[..n], clock) + if e.Some? then [e.value] else []
  }
}
