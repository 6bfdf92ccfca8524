/**
 The agent registry of `crates/forge3d/src/registry.rs`: a table of leases. A new agent's lease
 is forward-dated by one lease length; a refreshed one runs from the refresh.

 `Table` is the map behind the lock. Clock readings are unbounded integers.
 */
module Registries {

  import opened Prelude

  const LEASE_MS: int := 60_000

  datatype AgentInfo = AgentInfo(
    agentId: string, pid: int, lane: string, promptExcerpt: Option<string>,
    lastHeartbeat: int, registeredAt: int)

  type Table = map<string, AgentInfo>

  // Every entry is filed under its own id.
  ghost predicate WellKeyed(m: Table) {
    forall id :: id in m ==> m[id].agentId == id
  }

  function Upserted(m: Table, id: string, pid: int, lane: string, excerpt: Option<string>, now: int): AgentInfo {
    if id in m then m[id].(pid := pid, lane := lane, promptExcerpt := excerpt, lastHeartbeat := now)
    else AgentInfo(id, pid, lane, excerpt, now + LEASE_MS, now)
  }

  function Refreshed(m: Table, id: string, now: int): Table {
    if id in m then m[id := m[id].(lastHeartbeat := now)] else m
  }

  predicate Active(info: AgentInfo, now: int) {
    now - info.lastHeartbeat < LEASE_MS
  }

  predicate Alive(m: Table, id: string, now: int) {
    id in m && now - m[id].registeredAt < LEASE_MS
  }

  predicate Listed(m: Table, id: string, now: int) {
    id in m && Active(m[id], now)
  }

  function Evicted(m: Table, now: int): Table {
    map id | id in m && Active(m[id], now) :: m[id]
  }

  ghost predicate SortedByRegistration(agents: seq<AgentInfo>) {
    forall i, j :: 0 <= i < j < |agents| ==> agents[i].registeredAt <= agents[j].registeredAt
  }

  // A listing: the active entries, each once, by registration time (ties in any order).
  ghost predicate IsListing(agents: seq<AgentInfo>, m: Table, now: int) {
    && SortedByRegistration(agents)
    && (forall i :: 0 <= i < |agents| ==>
          agents[i].agentId in m && m[agents[i].agentId] == agents[i] && Active(agents[i], now))
    && (forall id :: Listed(m, id, now) ==> m[id] in agents)
    && (forall i, j :: 0 <= i < j < |agents| ==> agents[i].agentId != agents[j].agentId)
  }

  lemma InsertedInOrder(agents: seq<AgentInfo>, k: nat, info: AgentInfo)
    requires SortedByRegistration(agents)
    requires k <= |agents| && (k > 0 ==> agents[k - 1].registeredAt <= info.registeredAt)
    requires k < |agents| ==> info.registeredAt < agents[k].registeredAt
    ensures SortedByRegistration(InsertedAt(agents, k, info))
  {
  }

  lemma InsertedEntries(agents: seq<AgentInfo>, k: nat, info: AgentInfo, m: Table, now: int)
    requires IsListing(agents, m, now) && info.agentId !in m && k <= |agents| && Active(info, now)
    ensures var r, after := InsertedAt(agents, k, info), m[info.agentId := info];
            && (forall i :: 0 <= i < |r| ==>
                  r[i].agentId in after && after[r[i].agentId] == r[i] && Active(r[i], now))
            && (forall i, j :: 0 <= i < j < |r| ==> r[i].agentId != r[j].agentId)
  {
  }

  lemma InsertedIsListing(agents: seq<AgentInfo>, k: nat, info: AgentInfo, m: Table, now: int)
    requires IsListing(agents, m, now) && info.agentId !in m && Active(info, now)
    requires k <= |agents| && (k > 0 ==> agents[k - 1].registeredAt <= info.registeredAt)
    requires k < |agents| ==> info.registeredAt < agents[k].registeredAt
    ensures IsListing(InsertedAt(agents, k, info), m[info.agentId := info], now)
  {
    InsertedInOrder(agents, k, info);
    InsertedEntries(agents, k, info, m, now);
    InsertedMembers(agents, k, info);
    var after := m[info.agentId := info];
    forall id | Listed(after, id, now)
      ensures after[id] in InsertedAt(agents, k, info)
    {
      assert id != info.agentId ==> Listed(m, id, now);
    }
  }

  class Registry {
    var inner: Table

    constructor ()
      ensures inner == map[]
    {
      inner := map[];
    }

    method Upsert(id: string, pid: int, lane: string, excerpt: Option<string>, now: int) returns (info: AgentInfo)
      modifies this
      ensures info == Upserted(old(inner), id, pid, lane, excerpt, now)
      ensures inner == old(inner)[id := info]
    {
      var forward := now + LEASE_MS;
      if id in inner {
        info := inner[id].(pid := pid, lane := lane, promptExcerpt := excerpt, lastHeartbeat := now);
      } else {
        info := AgentInfo(id, pid, lane, excerpt, forward, now);
      }
      inner := inner[id := info];
    }

    method Heartbeat(id: string, now: int) returns (info: Option<AgentInfo>)
      modifies this
      ensures inner == Refreshed(old(inner), id, now)
      ensures info == if id in old(inner) then Some(inner[id]) else None
    {
      if id !in inner {
        return None;
      }
      inner := inner[id := inner[id].(lastHeartbeat := now)];
      return Some(inner[id]);
    }

    method Deregister(id: string) returns (removed: bool)
      modifies this
      ensures inner == old(inner) - {id}
      ensures removed <==> id in old(inner)
    {
      removed := id in inner;
      inner := inner - {id};
    }

    method IsAlive(id: string, now: int) returns (alive: bool)
      ensures alive == Alive(inner, id, now)
    {
      alive := false;
      if id in inner {
        var age := now - inner[id].registeredAt;
        alive := age < LEASE_MS;
      }
    }

    // The map is walked in any order.
    method ListActive(now: int) returns (agents: seq<AgentInfo>)
      requires WellKeyed(inner)
      ensures IsListing(agents, inner, now)
    {
      agents := [];
      var left := inner.Keys;
      while left != {}
        invariant left <= inner.Keys
        invariant IsListing(agents, inner - left, now)
        decreases left
      {
        var id :| id in left;
        ghost var walked := inner - left;
        if Active(inner[id], now) {
          agents := InsertByRegistration(agents, inner[id], walked, now);
          assert inner - (left - {id}) == walked[id := inner[id]];
        } else {
          assert inner - (left - {id}) == walked[id := inner[id]];
          assert forall i :: 0 <= i < |agents| ==> agents[i].agentId in walked;
        }
        left := left - {id};
      }
      assert inner - {} == inner;
    }

    // One step of the stable sort: the new entry goes behind its equals.
    method InsertByRegistration(agents: seq<AgentInfo>, info: AgentInfo, ghost walked: Table, ghost now: int)
      returns (r: seq<AgentInfo>)
      requires IsListing(agents, walked, now) && info.agentId !in walked && Active(info, now)
      ensures IsListing(r, walked[info.agentId := info], now)
    {
      var k := |agents|;
      while k > 0 && info.registeredAt < agents[k - 1].registeredAt
        invariant 0 <= k <= |agents|
        invariant forall j :: k <= j < |agents| ==> info.registeredAt < agents[j].registeredAt
      {
        k := k - 1;
      }
      r := InsertedAt(agents, k, info);
      InsertedIsListing(agents, k, info, walked, now);
    }

    method EvictExpired(now: int) returns (count: nat)
      modifies this
      ensures inner == Evicted(old(inner), now)
      ensures count == |old(inner)| - |inner|
    {
      var keys := set id | id in inner && !Active(inner[id], now);
      count := |keys|;
      inner := inner - keys;
      assert old(inner).Keys == inner.Keys + keys;
    }
  }

  // ----- histories -----

  datatype Event =
    | Upsert(id: string, pid: int, lane: string, excerpt: Option<string>, t: int)
    | Heartbeat(id: string, t: int)
    | Deregister(id: string, t: int)
    | Evict(t: int)

  function Step(m: Table, e: Event): Table {
    match e
    case Upsert(id, pid, lane, excerpt, t) => m[id := Upserted(m, id, pid, lane, excerpt, t)]
    case Heartbeat(id, t) => Refreshed(m, id, t)
    case Deregister(id, _) => m - {id}
    case Evict(t) => Evicted(m, t)
  }

  function Run(es: seq<Event>): Table {
    if es == [] then map[] else Step(Run(es[..|es| - 1]), es[|es| - 1])
  }

  lemma RunSnoc(es: seq<Event>, e: Event)
    ensures Run(es + [e]) == Step(Run(es), e)
  {
    assert (es + [e])[..|es|] == es;
  }

  predicate Names(e: Event, id: string) {
    !e.Evict? && e.id == id
  }

  predicate Touches(e: Event, id: string) {
    (e.Upsert? || e.Heartbeat?) && e.id == id
  }

  // Registered by the history: an upsert with no deregistration and no expiry behind it. An
  // eviction removes the agent exactly when its lease has run out by then.
  predicate Registered(es: seq<Event>, id: string) {
    es != [] &&
    var pre, last := es[..|es| - 1], es[|es| - 1];
    match last
    case Upsert(other, _, _, _, _) => other == id || Registered(pre, id)
    case Heartbeat(_, _) => Registered(pre, id)
    case Deregister(other, _) => other != id && Registered(pre, id)
    case Evict(t) => Registered(pre, id) && t < LeaseEnd(pre, id)
  }

  // The end of the lease that the last event naming the agent gives it: twice the length when
  // that event registers it anew.
  function LeaseEnd(es: seq<Event>, id: string): int {
    if es == [] then 0
    else
      var pre, last := es[..|es| - 1], es[|es| - 1];
      if !Names(last, id) then LeaseEnd(pre, id)
      else last.t + if last.Upsert? && !Registered(pre, id) then 2 * LEASE_MS else LEASE_MS
  }

  // The i-th event registers the agent and nothing behind it takes it away again.
  ghost predicate RegisteredBy(es: seq<Event>, id: string, i: int) {
    && 0 <= i < |es| && es[i].Upsert? && es[i].id == id
    && forall k :: i < k < |es| ==> Leaves(es, id, k)
  }

  // The k-th event does not take the agent away.
  predicate Leaves(es: seq<Event>, id: string, k: nat)
    requires k < |es|
  {
    match es[k]
    case Deregister(other, _) => other != id
    case Evict(t) => t < LeaseEnd(es[..k], id)
    case _ => true
  }

  // The i-th event is the last that names the agent.
  ghost predicate LastNamed(es: seq<Event>, id: string, i: int) {
    0 <= i < |es| && Names(es[i], id) && forall k :: i < k < |es| ==> !Names(es[k], id)
  }

  /** What the table holds after any history: the agents registered by it, each with the lease
      its last event gives. */
  lemma {:induction false} LeaseRule(es: seq<Event>, id: string)
    ensures id in Run(es) <==> Registered(es, id)
    ensures id in Run(es) ==> Run(es)[id].lastHeartbeat + LEASE_MS == LeaseEnd(es, id)
  {
    if es != [] {
      LeaseRule(es[..|es| - 1], id);
    }
  }

  lemma RegisteredByPrefix(es: seq<Event>, id: string, i: int)
    requires 0 <= i < |es| - 1
    ensures RegisteredBy(es, id, i) <==> RegisteredBy(es[..|es| - 1], id, i) && Leaves(es, id, |es| - 1)
  {
    var n := |es| - 1;
    var pre := es[..n];
    forall k | i < k < n
      ensures Leaves(pre, id, k) == Leaves(es, id, k)
    {
      assert pre[..k] == es[..k];
    }
  }

  /** Registration without recursion: some upsert of the agent has neither a deregistration nor
      an eviction after the end of its lease behind it. */
  lemma {:induction false} RegisteredIff(es: seq<Event>, id: string)
    ensures Registered(es, id) <==> exists i :: RegisteredBy(es, id, i)
  {
    if es != [] {
      var n := |es| - 1;
      RegisteredIff(es[..n], id);
      forall i | 0 <= i < n
        ensures RegisteredBy(es, id, i) <==> RegisteredBy(es[..n], id, i) && Leaves(es, id, n)
      {
        RegisteredByPrefix(es, id, i);
      }
      if es[n].Upsert? && es[n].id == id {
        assert RegisteredBy(es, id, n);
      }
    }
  }

  /** The lease is the one given by the last event that names the agent. */
  lemma {:induction false} LastNamedGivesLease(es: seq<Event>, id: string, i: int)
    requires LastNamed(es, id, i)
    ensures LeaseEnd(es, id)
            == es[i].t + if es[i].Upsert? && !Registered(es[..i], id) then 2 * LEASE_MS else LEASE_MS
  {
    if i < |es| - 1 {
      LastNamedGivesLease(es[..|es| - 1], id, i);
      assert es[..|es| - 1][..i] == es[..i];
    }
  }

  /** The listing refines the history, evictions included: an agent is listed exactly when it is
      registered and the lease of the last event that names it has not run out. */
  lemma ListedIff(es: seq<Event>, id: string, now: int)
    ensures Listed(Run(es), id, now) <==> Registered(es, id) && now < LeaseEnd(es, id)
  {
    LeaseRule(es, id);
  }

  lemma {:induction false} RunIsWellKeyed(es: seq<Event>)
    ensures WellKeyed(Run(es))
  {
    if es != [] {
      RunIsWellKeyed(es[..|es| - 1]);
    }
  }

  /** So does the list that is returned: after any history it holds one entry for each agent
      whose lease has not run out, and no other. */
  lemma ListingRefinesHistory(es: seq<Event>, agents: seq<AgentInfo>, id: string, now: int)
    requires IsListing(agents, Run(es), now)
    ensures (exists i :: 0 <= i < |agents| && agents[i].agentId == id) <==>
              Registered(es, id) && now < LeaseEnd(es, id)
    ensures forall i, j :: 0 <= i < j < |agents| ==>
              agents[i].registeredAt <= agents[j].registeredAt && agents[i].agentId != agents[j].agentId
  {
    ListedIff(es, id, now);
    RunIsWellKeyed(es);
    if Listed(Run(es), id, now) {
      var i :| 0 <= i < |agents| && agents[i] == Run(es)[id];
      assert agents[i].agentId == id;
    }
  }

  // The i-th event is the last upsert of the agent.
  ghost predicate LastUpsert(es: seq<Event>, id: string, i: int) {
    && 0 <= i < |es| && es[i].Upsert? && es[i].id == id
    && forall k :: i < k < |es| ==> !(es[k].Upsert? && es[k].id == id)
  }

  /** Process, lane and prompt are those of the agent's last upsert: no heartbeat, eviction or
      event of another agent changes them. */
  lemma {:induction false} LastUpsertGivesFields(es: seq<Event>, id: string, i: int)
    requires LastUpsert(es, id, i) && id in Run(es)
    ensures var info := Run(es)[id];
            info.agentId == id && info.pid == es[i].pid && info.lane == es[i].lane && info.promptExcerpt == es[i].excerpt
  {
    RunIsWellKeyed(es);
    if i < |es| - 1 {
      LastUpsertGivesFields(es[..|es| - 1], id, i);
    }
  }

  // ----- eviction -----

  // Two tables that differ at most in an entry for the agent that is stale from time t on.
  ghost predicate SameFrom(a: Table, b: Table, id: string, t: int) {
    || (id in a && id in b && a[id] == b[id])
    || ((id in a ==> a[id].lastHeartbeat + LEASE_MS <= t) && (id in b ==> b[id].lastHeartbeat + LEASE_MS <= t))
  }

  lemma StepKeepsSameFrom(a: Table, b: Table, e: Event, id: string, t: int)
    requires SameFrom(a, b, id, t) && !Touches(e, id)
    ensures SameFrom(Step(a, e), Step(b, e), id, t)
  {
    match e
    case Upsert(_, _, _, _, _) =>
    case Heartbeat(_, _) =>
    case Deregister(_, _) =>
    case Evict(_) =>
  }

  /** Eviction at time t is invisible: whatever other agents do and whatever is deregistered or
      evicted afterwards, no listing from t on changes until the agent is touched again. */
  lemma {:induction false} EvictionIsInvisible(es: seq<Event>, t: int, fs: seq<Event>, id: string, now: int)
    requires t <= now
    requires forall k :: 0 <= k < |fs| ==> !Touches(fs[k], id)
    ensures SameFrom(Run(es + [Evict(t)] + fs), Run(es + fs), id, t)
    ensures Listed(Run(es + [Evict(t)] + fs), id, now) <==> Listed(Run(es + fs), id, now)
  {
    if fs == [] {
      assert es + [Evict(t)] + fs == es + [Evict(t)] && es + fs == es;
      RunSnoc(es, Evict(t));
    } else {
      var pre, last := fs[..|fs| - 1], fs[|fs| - 1];
      EvictionIsInvisible(es, t, pre, id, now);
      assert es + [Evict(t)] + fs == es + [Evict(t)] + pre + [last] && es + fs == es + pre + [last];
      RunSnoc(es + [Evict(t)] + pre, last);
      RunSnoc(es + pre, last);
      StepKeepsSameFrom(Run(es + [Evict(t)] + pre), Run(es + pre), last, id, t);
    }
  }

  /** A touch does show it: an agent whose lease ran out by t is revived by a heartbeat when it
      was not evicted and unknown when it was, and registering it again gives the evicted one
      the longer lease. */
  lemma EvictionShowsOnTouch(es: seq<Event>, t: int, id: string, touch: int)
    requires t <= touch && id in Run(es)
    ensures var kept, evicted := Run(es), Run(es + [Evict(t)]);
            && (id !in evicted <==> kept[id].lastHeartbeat + LEASE_MS <= t)
            && (id !in evicted ==>
                  && Listed(Refreshed(kept, id, touch), id, touch)
                  && Refreshed(evicted, id, touch) == evicted
                  && Upserted(evicted, id, 0, "", None, touch).lastHeartbeat
                     == Upserted(kept, id, 0, "", None, touch).lastHeartbeat + LEASE_MS)
  {
    RunSnoc(es, Evict(t));
  }

  // ----- the two notions of being alive -----

  function Clock(es: seq<Event>): int
    requires es != []
  {
    es[|es| - 1].t
  }

  predicate Timed(es: seq<Event>) {
    |es| > 1 ==> Timed(es[..|es| - 1]) && Clock(es[..|es| - 1]) <= Clock(es)
  }

  lemma {:induction false} RegisteredFirst(es: seq<Event>, id: string)
    requires Timed(es) && id in Run(es)
    ensures es != [] && Run(es)[id].registeredAt <= Clock(es)
    ensures Run(es)[id].registeredAt <= Run(es)[id].lastHeartbeat
  {
    if |es| > 1 && id in Run(es[..|es| - 1]) {
      RegisteredFirst(es[..|es| - 1], id);
    }
  }

  // The time of the last upsert that registered the agent anew.
  function Since(es: seq<Event>, id: string): int {
    if es == [] then 0
    else
      var pre, last := es[..|es| - 1], es[|es| - 1];
      if last.Upsert? && last.id == id && !Registered(pre, id) then last.t else Since(pre, id)
  }

  ghost predicate RegistersAnew(es: seq<Event>, id: string, i: int) {
    0 <= i < |es| && es[i].Upsert? && es[i].id == id && !Registered(es[..i], id)
  }

  lemma {:induction false} LastRegistrationGivesSince(es: seq<Event>, id: string, i: int)
    requires RegistersAnew(es, id, i) && forall k :: i < k < |es| ==> !RegistersAnew(es, id, k)
    ensures Since(es, id) == es[i].t
  {
    if i < |es| - 1 {
      var pre := es[..|es| - 1];
      forall k | 0 <= k < |pre|
        ensures RegistersAnew(pre, id, k) == RegistersAnew(es, id, k)
      {
        assert pre[..k] == es[..k];
      }
      assert !RegistersAnew(es, id, |es| - 1);
      LastRegistrationGivesSince(pre, id, i);
    }
  }

  lemma {:induction false} SinceRule(es: seq<Event>, id: string)
    ensures id in Run(es) ==> Run(es)[id].registeredAt == Since(es, id)
  {
    if es != [] {
      SinceRule(es[..|es| - 1], id);
      LeaseRule(es[..|es| - 1], id);
    }
  }

  /** Being alive refines the history too: registered, and less than one lease since the last
      registration, however often it was refreshed. */
  lemma AliveIff(es: seq<Event>, id: string, now: int)
    ensures Alive(Run(es), id, now) <==> Registered(es, id) && now < Since(es, id) + LEASE_MS
  {
    LeaseRule(es, id);
    SinceRule(es, id);
  }

  /** On a non-decreasing clock an agent that is alive is listed. The answers differ exactly from
      one lease after its last registration to the end of the lease its last event gave it. */
  lemma AliveImpliesListed(es: seq<Event>, id: string, now: int)
    requires Timed(es)
    ensures Alive(Run(es), id, now) ==> Listed(Run(es), id, now)
    ensures Alive(Run(es), id, now) != Listed(Run(es), id, now) <==>
            Registered(es, id) && Since(es, id) + LEASE_MS <= now < LeaseEnd(es, id)
  {
    if id in Run(es) {
      RegisteredFirst(es, id);
    }
    AliveIff(es, id, now);
    ListedIff(es, id, now);
  }

  /** So the two answers agree at all times exactly when the agent is not registered or its last
      event was a refresh at the very time of its registration. */
  lemma AnswersAgreeIff(es: seq<Event>, id: string)
    requires Timed(es)
    ensures (forall now :: Alive(Run(es), id, now) == Listed(Run(es), id, now)) <==>
            (Registered(es, id) ==> LeaseEnd(es, id) == Since(es, id) + LEASE_MS)
  {
    forall now
      ensures Alive(Run(es), id, now) != Listed(Run(es), id, now) <==>
              Registered(es, id) && Since(es, id) + LEASE_MS <= now < LeaseEnd(es, id)
    {
      AliveImpliesListed(es, id, now);
    }
    if Registered(es, id) {
      LeaseRule(es, id);
      SinceRule(es, id);
      RegisteredFirst(es, id);
      assert Alive(Run(es), id, Since(es, id) + LEASE_MS) != Listed(Run(es), id, Since(es, id) + LEASE_MS) <==>
          LeaseEnd(es, id) != Since(es, id) + LEASE_MS;
    }
  }

  // Registered at 1 s and refreshed at 50 s, an agent is listed at 70 s and not alive.
  lemma ListedNotAliveExample()
    ensures var es := [Upsert("a", 1, "lane", None, 1_000), Heartbeat("a", 50_000)];
            Timed(es) && Listed(Run(es), "a", 70_000) && !Alive(Run(es), "a", 70_000)
  {
    var up, beat := Upsert("a", 1, "lane", None, 1_000), Heartbeat("a", 50_000);
    assert [up, beat][..1] == [] + [up];
    RunSnoc([], up);
    RunSnoc([] + [up], beat);
    assert [up, beat] == [] + [up] + [beat];
  }
}
