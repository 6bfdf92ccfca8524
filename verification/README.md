# Verification of HeliosLite's deterministic core

A Dafny model of six parts of the repository whose logic does not depend on I/O, with proofs about
whole runs of each. `dafny verify dfyconfig.toml` checks everything.

| file | models |
|---|---|
| `CircuitBreaker.dfy`, `Bulkhead.dfy`, `Throttle.dfy`, `Policy.dfy` | the resilience layer |
| `ToolCalls.dfy`, `Orchestrator.dfy`, `OrchestratorRuns.dfy`, `OrchestratorFlow.dfy` | the agent loop and its tool calls |
| `Frames.dfy`, `Registry.dfy`, `Server.dfy` | the forge3d wire protocol, lease registry and connection loop |
| `Compaction.dfy` | context compaction |
| `ShellQuoting.dfy` | commit-command quoting and command splitting |
| `SearchDedup.dfy`, `SyncPlan.dfy`, `FileTracking.dfy` | deduplication, sync plan, external file changes |

Code that updates state in place is a class or a method with loops, each proved equal to a step of
a value-level function; what the source promises is then proved about runs of those functions.
The environment is an input: clock readings (one non-decreasing integer millisecond clock),
interleavings, completion orders, hooks, model answers, storage and channel results, JSON codecs,
file contents and the order of paths are universally quantified in every theorem.

## Where the code and its comments differ

The model follows the code. In each case the exact condition is proved.

- The breaker's comments promise a single half-open probe (`resilience.rs:31-42`); every caller that
  asks after the cool-down is admitted (`ProbesAreNotLimited`).
- A refused `try_acquire` is charged a token, so waiting as told is usually followed by another wait
  (`RetryOnTimeIff`); at rates up to 1000 per second it always is.
- `record_retry_after` says the next call waits that long; with spare burst it may not
  (`RetryAfterHonouredIff`). The policy's own throttle has a burst of one and always waits.
- `OrchestratorDropGuard` is described as a best-effort save on panic or cancellation. It keeps the
  dirty flag of its installation, so it acts only when a run starts dirty (`GuardActsIff`). From a
  clean start it saves nothing; from a dirty start it writes its old snapshot over the final save
  even when the run ends well (`FinalSaveIff`, `SecondRunLosesAnswer`). From no start does it keep
  every failing run from losing something (`GuardPromiseNeverHolds`, `FailedRunLosesAnswer`).
  `app.rs:431-453` builds a clean orchestrator, runs it once and saves the conversation again
  itself; a dirty start takes a second `run` of one that failed to save, or the generated setter of
  `dirty`.
- Splitting tool calls compares lower-cased names, merging compares up to ASCII case; a name with a
  Kelvin sign for its k passes only the first test and the merge panics (`ExecuteToolCalls`).
- `decode_frame` documents `Ok(None)` for a peer that closes before a header; one that closes inside
  a header gives the same (`CleanEndIff`, `CutHeaderExample`). `write_frame` does not check the
  limit that `decode_frame` enforces (`FrameRoundTripIff`, `BytesToResponses`).
- Compaction is said to carry the accurate usage forward; a droppable message outside the range
  takes its usage with it (`UsageUnchangedIff`). The code itself gives a usage only to answers and
  summaries and marks only user texts droppable, so this takes a context built elsewhere;
  `UsageOverRuns` covers the contexts it builds.
- A comment on `deduplicate_results` says each node appears once; repeated entries within the
  winning query all stay (`AppearsOnceIff`, `RepeatedEntryStays`).
- Having a value is commented to be better than having none (`search_dedup.rs:57-58`); distances are
  compared the other way round, so an entry without one beats every entry with one of the same
  relevance (`MissingDistanceWinsIff`, `MissingDistanceExample`).
- Workspace paths are said to be absolute; with a relative base directory they are not, and what was
  uploaded is planned again (`AbsolutizeTwiceIff`, `ReplanIsEmptyIff`).
- `detect` promises a deterministic order; paths that are spelled differently but compare equal stay
  in the order their reads finished (`OrderDoesNotShowIff`).
- `is_alive` and `list_active` measure the lease from different times (`AnswersAgreeIff`,
  `ListedNotAliveExample`).
- An empty commit message is dropped by the splitter (`CommitRoundTripIff`).

## Model

| member | source | states |
|---|---|---|
| CircuitBreakers.BreakerRefinesHistory | crates/forge_app/src/resilience.rs:68-114 | over every run on a non-decreasing clock, a call is refused iff the recorded outcomes end in a full threshold of failures and the cool-down after the last failure has not passed |
| CircuitBreakers.RunDescribesHistory | crates/forge_app/src/resilience.rs:43-114 | the invariant behind it: what the three atomics hold, in terms of the recorded outcomes and times |
| CircuitBreakers.AllowLeavesHistory | crates/forge_app/src/resilience.rs:68-91 | a call that is only let through leaves no trace in what decides later calls |
| CircuitBreakers.ProbeOutcomeDecides | crates/forge_app/src/resilience.rs:86-108 | a failed half-open call always reopens for a fresh cool-down; a success closes from any state |
| CircuitBreakers.ProbesAreNotLimited | crates/forge_app/src/resilience.rs:31-42 | the promised single probe: once a full threshold of failures is on record, the callers admitted number exactly those that ask when the cool-down is over, so the promise holds iff at most one asks |
| CircuitBreakers.EveryLateCallerIsAdmitted | crates/forge_app/src/resilience.rs:71-89 | from the open state, the admitted callers are those at or after the end of the cool-down |
| CircuitBreakers.TwoProbesExample | crates/forge_app/src/resilience.rs:86-89 | a concrete run in which two callers are admitted half-open |
| CircuitBreakers.CircuitBreaker.constructor | crates/forge_app/src/resilience.rs:53-62 | the initial breaker, with a threshold of at least one |
| CircuitBreakers.CircuitBreaker.Allow | crates/forge_app/src/resilience.rs:68-91 | the method takes exactly the step the history theorem is about and reports the state it leaves |
| CircuitBreakers.CircuitBreaker.Record | crates/forge_app/src/resilience.rs:94-108 | likewise for recording an outcome |
| CircuitBreakers.CircuitBreaker.TripOpen | crates/forge_app/src/resilience.rs:110-114 | opening sets the opening time and the state, and nothing else |
| Bulkheads.BulkheadIsSafe | crates/forge_app/src/resilience.rs:147-187 | under every interleaving of any number of threads the counter equals the live guards and never exceeds the capacity |
| Bulkheads.StepsNeverWrap | crates/forge_app/src/resilience.rs:153-185 | the 32-bit counter never wraps, and a refusal is given only while every permit is out |
| Bulkheads.StepOutcomes | crates/forge_app/src/resilience.rs:147-187 | in every interleaving a load goes on iff a permit is free, seeing the number of live guards; a compare-exchange adds its guard iff that is still their number; a drop removes its guard |
| Bulkheads.RetriesAreBounded | crates/forge_app/src/resilience.rs:148-160 | a thread's failed compare-exchanges are at most the permits other threads took or dropped |
| Bulkheads.AllRetriesAreBounded | crates/forge_app/src/resilience.rs:148-160 | with n threads, all failed compare-exchanges together are at most n - 1 for every permit taken or dropped |
| Bulkheads.FailedCasWasOvertaken | crates/forge_app/src/resilience.rs:149-159 | a failed compare-exchange implies a step of another thread that changed the counter since the load |
| Bulkheads.Bulkhead.constructor | crates/forge_app/src/resilience.rs:137-143 | an empty bulkhead with capacity at least one |
| Bulkheads.Bulkhead.TryAcquire | crates/forge_app/src/resilience.rs:147-161 | the retry loop against arbitrary interference: which attempt decides, that it stops once others are quiet, and the counter it leaves |
| Bulkheads.Bulkhead.DropGuard | crates/forge_app/src/resilience.rs:183-187 | dropping a guard gives back exactly one permit |
| Throttles.RateBound | crates/forge_app/src/resilience.rs:229-262 | over every run with Retry-After values mixed in, the calls of any stretch from one call to another, or to itself, cost at most the burst plus what is earned until the last of them is told to go ahead |
| Throttles.WindowBound | crates/forge_app/src/resilience.rs:229-262 | calls let through in any window of any run are at most burst plus rate times the window |
| Throttles.CreditBound | crates/forge_app/src/resilience.rs:229-253 | the conservation law behind both: every millisecond earns the rate, every call costs a token |
| Throttles.CreditFloor | crates/forge_app/src/resilience.rs:241-253 | the other side of that law: earnings are lost only to the cap |
| Throttles.FreshBurst | crates/forge_app/src/resilience.rs:212-253 | a new bucket lets as many calls through as its burst, whenever they come, and makes the next one at the same instant wait |
| Throttles.PacedIsAllowed | crates/forge_app/src/resilience.rs:241-262 | a caller that keeps to the rate is never told to wait, however long it goes on |
| Throttles.WaitIsLeast | crates/forge_app/src/resilience.rs:257-260 | the returned wait is the least number of milliseconds that earns what is missing |
| Throttles.RetryAfterDelays | crates/forge_app/src/resilience.rs:207-262 | after a Retry-After of R no later call goes through before rate times the elapsed time has earned back rate times R less the burst's spare; with a burst of one, never before R has passed |
| Throttles.RetryAfterHonouredIff | crates/forge_app/src/resilience.rs:226-237 | a Retry-After is waited out by every run that follows iff it is zero or the balance is below one token plus one millisecond's earnings |
| Throttles.EarlyCall | crates/forge_app/src/resilience.rs:226-237 | otherwise a call one millisecond early goes through |
| Throttles.FirstCallAfterRetryAfter | crates/forge_app/src/resilience.rs:229-256 | exactly when the first call after a Retry-After goes through |
| Throttles.RetryOnTimeIff | crates/forge_app/src/resilience.rs:239-261 | a refused caller that returns exactly when told is let through iff the wait also earned the token the refusal was charged; never at a rate up to 1000 per second |
| Throttles.RetryOnTimeExample | crates/forge_app/src/resilience.rs:250-260 | a caller told to wait 200 ms and told to wait again after them |
| Throttles.AdaptiveThrottle.WithBurst | crates/forge_app/src/resilience.rs:212-224 | the bucket starts full, with rate and burst at least one |
| Throttles.AdaptiveThrottle.RecordRetryAfter | crates/forge_app/src/resilience.rs:229-237 | withdraws the overdraft and restarts the refill clock |
| Throttles.AdaptiveThrottle.TryAcquire | crates/forge_app/src/resilience.rs:241-262 | the method takes the step the rate theorems are about and returns its decision |
| Policies.AllowMeansAllGatesOpen | crates/forge_app/src/resilience.rs:299-315 | what a check answers over every mix of checks, permits, outcomes and Retry-After values: ShortCircuit iff the outcomes have the breaker cooling down, otherwise Throttled iff there is no whole token, otherwise BulkheadFull iff every permit is out, otherwise Allow |
| Policies.ThrottledWaitIsLeast | crates/forge_app/src/resilience.rs:307-310 | a throttled check is told the least wait that earns what is missing |
| Policies.FreshPolicyClears | crates/forge_app/src/resilience.rs:284-315 | the first check of a new policy is cleared |
| Policies.GatesSeeTheirEvents | crates/forge_app/src/resilience.rs:299-324 | in every mix each gate ends as its own run over its own events leaves it |
| Policies.CapacityHolds | crates/forge_app/src/resilience.rs:311-323 | over every mix the counter is the live permits, within capacity, and a check leaves it as it found it |
| Policies.ClearedAreBounded | crates/forge_app/src/resilience.rs:302-314 | cleared checks in any window of any mix are at most one plus rate times the window |
| Policies.ClearedWaitsOutRetryAfter | crates/forge_app/src/resilience.rs:229-237 | no check of any mix is cleared before a Retry-After has passed |
| Policies.ResiliencePolicy.constructor | crates/forge_app/src/resilience.rs:284-297 | a closed breaker, an empty bulkhead and a full throttle of burst one |
| Policies.ResiliencePolicy.Check | crates/forge_app/src/resilience.rs:302-315 | the method, with the permit it takes and drops, is the step the mix theorems are about |
| Policies.ResiliencePolicy.Record | crates/forge_app/src/resilience.rs:319-323 | records the outcome and gives back a permit that is handed in |
| ToolCalls.ExecuteToolCalls | crates/forge_app/src/orch.rs:85-199 | for every order in which the parallel calls finish: without a hook failure, every call is paired with its own result in order iff the two name tests agree on every call, and otherwise the merge runs out of results and panics |
| ToolCalls.Partition | crates/forge_app/src/orch.rs:100-105 | the split into task calls and others, each in order |
| ToolCalls.JoinAll | crates/forge_app/src/orch.rs:109-118 | parallel results land with their own calls whatever the order of finishing |
| ToolCalls.Merge | crates/forge_app/src/orch.rs:184-196 | the merge finds every result iff the tests agree |
| ToolCalls.TestsDifferIff | crates/forge_app/src/orch.rs:94-104 | the two name tests differ exactly on names that spell task with a Kelvin sign |
| ToolCalls.IsTaskIff | crates/forge_app/src/orch.rs:94-98 | the merge takes for a task exactly the four letters of task in either case |
| ToolCalls.DrawsMatchIff | crates/forge_app/src/orch.rs:103-195 | the merge draws as many results of either kind as there are iff the tests agree |
| ToolCalls.KelvinTaskIsLost | crates/forge_app/src/orch.rs:103-194 | a concrete call that the merge cannot place |
| OrchestratorRuns.EveryRunKeeps | crates/forge_app/src/orch.rs:274-520 | every run, finished, failed or cut short: each model request carries exactly the context last saved; when the next request or the completion goes out, what the hooks left with that very answer and its tool outputs at its end has been saved, each output being the call's own result in that turn; with limit M there are at most max(1, M) requests plus one per End-hook extension |
| OrchestratorFlow.EveryRunFlows | crates/forge_app/src/orch.rs:274-520 | the flow of every run: the first request is saved with the context from before it, each later one with exactly what the turn before handed on, the saved answer with the turn's metrics or what the End hook left when it added messages; the loop goes on iff it is not due to stop and no limit is reached; limits are announced and the End hook runs only when due; no step follows a failed one; a run that ends well ends with what its last End hook left |
| OrchestratorFlow.WorkingRunEndsWell | crates/forge_app/src/orch.rs:274-520 | with every hook, save, message and model call working and the tool-name tests agreeing, a run ends well or is cut short after its last turn |
| OrchestratorFlow.TurnFlows | crates/forge_app/src/orch.rs:320-509 | one turn keeps the flow |
| OrchestratorRuns.StoreHoldsLastSave | crates/forge_app/src/orch.rs:532-542 | at the end of every run, well or not, the store holds what was saved last, or what it held before |
| OrchestratorRuns.CompletionIsAnnounced | crates/forge_app/src/orch.rs:386-387 | a run that ends well announces completion once iff its last answer was a stop without tool calls; a failed run announces nothing |
| OrchestratorRuns.FinalSaveIff | crates/forge_app/src/orch.rs:301-305 | every run that ends well leaves the stored conversation equal to the one in memory iff the orchestrator is clean at the start |
| OrchestratorRuns.FinalSave | crates/forge_app/src/orch.rs:301-305 | for the single run: what the store holds is the conversation in memory, or the one the Start hook left if the start was dirty and the guard saves |
| OrchestratorRuns.GuardActsIff | crates/forge_app/src/orch.rs:296-305 | the guard makes a difference to some run iff the start is dirty |
| OrchestratorRuns.GuardPromiseNeverHolds | crates/forge_app/src/orch.rs:296-305 | from every start, clean or dirty, and with every limit some run fails with the guard's save working and the conversation in memory not stored |
| OrchestratorRuns.FailedRunLosesAnswer | crates/forge_app/src/orch.rs:545-577 | such a run for any start, limit and answer text: memory holds the context of the start with a message and the answer behind it, the store only that context |
| OrchestratorRuns.AnswerIsSavedWithResults | crates/forge_app/src/orch.rs:388-452 | a turn goes on only if the two tool-name tests agree on every call of the answer, and then saves the answer followed by each call's own result, in order |
| OrchestratorRuns.SecondRunLosesAnswer | crates/forge_app/src/orch.rs:545-577 | two runs after which a saved answer is gone from the store: the guard writes its old snapshot over it |
| OrchestratorRuns.IterateKeeps | crates/forge_app/src/orch.rs:320-509 | the loop invariant over any number of turns |
| OrchestratorRuns.AskKeeps | crates/forge_app/src/orch.rs:321-369 | saving, the Request hook and the request keep the trace safe |
| OrchestratorRuns.AbsorbKeeps | crates/forge_app/src/orch.rs:374-453 | exactly the context the hooks left, the answer and its calls' own results is saved next |
| OrchestratorRuns.ConcludeKeeps | crates/forge_app/src/orch.rs:455-508 | the request limit and the End hook keep the bound on requests |
| Orchestration.Orchestrator.Flush | crates/forge_app/src/orch.rs:536-542 | saves and clears the flag when dirty; a failed save leaves it set |
| Orchestration.Orchestrator.RequestReply | crates/forge_app/src/orch.rs:321-369 | the first part of the loop body, as the step function the run theorems use |
| Orchestration.Orchestrator.ProcessReply | crates/forge_app/src/orch.rs:374-453 | the second part of the loop body, executing the tool calls in any order of finishing |
| Orchestration.Orchestrator.FinishTurn | crates/forge_app/src/orch.rs:455-508 | the last part of the loop body |
| Orchestration.Orchestrator.TakeTurn | crates/forge_app/src/orch.rs:320-509 | one pass through the loop body |
| Orchestration.Orchestrator.LoopUntilDone | crates/forge_app/src/orch.rs:320-509 | the while loop is the iteration the run theorems are about |
| Orchestration.Orchestrator.Guarded | crates/forge_app/src/orch.rs:307-520 | everything that happens while the guard is in place |
| Orchestration.Orchestrator.Run | crates/forge_app/src/orch.rs:274-520 | the whole run, with the Start hook before and the guard's save after it |
| Frames.FrameRoundTripIff | crates/forge3d/src/protocol.rs:81-117 | a frame decodes to its payload, leaving the rest of the stream, iff the payload is within the limit, which the writer does not check |
| Frames.DecodeCases | crates/forge3d/src/protocol.rs:81-108 | one read of any bytes whatever: when it is a clean end, a refused length, a cut-off frame or a payload |
| Frames.HeaderBytes | crates/forge3d/src/protocol.rs:81-92 | the header is the length's four bytes, the most significant first |
| Frames.StreamRoundTripIff | crates/forge3d/src/protocol.rs:81-108 | reading a stream of frames gives back exactly the payloads written iff all are within the limit |
| Frames.AnyPrefixIsSafe | crates/forge3d/src/protocol.rs:94-108 | any prefix of a stream decodes to exactly the payloads whose frames lie wholly in it; what is left over is an error if it holds a whole header and a clean end otherwise |
| Frames.CleanEndIff | crates/forge3d/src/protocol.rs:94-108 | a clean end is reported iff the cut is at a frame boundary or inside a header |
| Frames.CutHeaderExample | crates/forge3d/src/protocol.rs:94-108 | one byte of a header reads as a clean end |
| Frames.BigEndianRoundTrip | crates/forge3d/src/protocol.rs:84-101 | big-endian digits of any length read back to the number |
| Frames.HeaderRoundTrip | crates/forge3d/src/protocol.rs:82-101 | a header reads back to the length cut to 32 bits |
| Frames.Reader.ReadExact | crates/forge3d/src/protocol.rs:95-106 | fills a buffer or uses up the stream and fails |
| Frames.Reader.DecodeFrame | crates/forge3d/src/protocol.rs:94-108 | one read of the stream, with its error cases and what it consumes |
| Frames.Writer.WriteFrame | crates/forge3d/src/protocol.rs:111-117 | appends exactly the encoded frame |
| Registries.ListedIff | crates/forge3d/src/registry.rs:97-198 | over every history, evictions included, an agent is listed iff it is registered and the lease of the last event naming it has not run out, twice the length when that event registers it anew |
| Registries.ListingRefinesHistory | crates/forge3d/src/registry.rs:166-178 | the list that is returned has one entry for each such agent and no other, by registration time |
| Registries.RegisteredIff | crates/forge3d/src/registry.rs:97-198 | registered means: some upsert has neither a deregistration nor an eviction after the end of its lease behind it |
| Registries.LastNamedGivesLease | crates/forge3d/src/registry.rs:97-141 | the lease is the one the last event naming the agent gives |
| Registries.LeaseRule | crates/forge3d/src/registry.rs:97-198 | the invariant behind it: the table holds the registered agents, and the stored heartbeat is the lease rule applied to the history |
| Registries.LastUpsertGivesFields | crates/forge3d/src/registry.rs:97-141 | process, lane and prompt of an entry are those of the agent's last upsert, whatever else happens |
| Registries.EvictionIsInvisible | crates/forge3d/src/registry.rs:183-198 | eviction at t changes no listing from t on until the agent is touched again, whatever else happens |
| Registries.EvictionShowsOnTouch | crates/forge3d/src/registry.rs:97-141 | what a touch then shows: a heartbeat revives only the agent that was not evicted, and a new registration gets the longer lease |
| Registries.AliveIff | crates/forge3d/src/registry.rs:97-159 | over every history, evictions included, an agent is alive iff it is registered and less than one lease has passed since its last registration, however often it was refreshed |
| Registries.LastRegistrationGivesSince | crates/forge3d/src/registry.rs:97-129 | that time is the one of the last upsert at which the agent was not registered |
| Registries.AliveImpliesListed | crates/forge3d/src/registry.rs:148-178 | on a non-decreasing clock alive implies listed, and the answers differ exactly from one lease after the last registration to the end of the lease the last event gave |
| Registries.AnswersAgreeIff | crates/forge3d/src/registry.rs:148-178 | so they agree at all times iff the agent is not registered or that lease ends one lease after the registration |
| Registries.ListedNotAliveExample | crates/forge3d/src/registry.rs:148-178 | registered at 1 s and refreshed at 50 s, an agent is listed at 70 s and not alive |
| Registries.RegisteredFirst | crates/forge3d/src/registry.rs:116-136 | no heartbeat is earlier than the registration |
| Registries.Registry.Upsert | crates/forge3d/src/registry.rs:97-129 | registers or refreshes, leaving every other agent alone |
| Registries.Registry.Heartbeat | crates/forge3d/src/registry.rs:132-141 | refreshes a known agent and reports an unknown one |
| Registries.Registry.Deregister | crates/forge3d/src/registry.rs:144-146 | removes exactly that agent and says whether it was there |
| Registries.Registry.IsAlive | crates/forge3d/src/registry.rs:153-159 | measures from the registration |
| Registries.Registry.ListActive | crates/forge3d/src/registry.rs:166-178 | the active entries, each once, by registration time, for any order of walking the map |
| Registries.Registry.EvictExpired | crates/forge3d/src/registry.rs:183-198 | keeps exactly the active entries and counts the others |
| Servers.Server.HandleConnection | crates/forge3d/src/server.rs:399-429 | over every input: the requests served are those up to the first malformed frame or payload; the output is one frame per request with an id, in order, holding its answer; notifications leave no trace |
| Servers.BytesToResponses | crates/forge3d/src/server.rs:399-429 | for any stream of well-formed request frames the client reads back one response per request with an id, in order, with that id, iff every rendered response is within the frame limit |
| Servers.NotificationsAreSilent | crates/forge3d/src/server.rs:420-423 | dropping or adding notifications changes neither the calls served nor, with them, registry and replies (section 4.1 of the JSON-RPC 2.0 Specification) |
| Servers.RepliesCarryIds | crates/forge3d/src/server.rs:174-205 | every reply carries its request's id, success or error (section 5 of the JSON-RPC 2.0 Specification) |
| Servers.ServedReplaysEvents | crates/forge3d/src/server.rs:174-342 | the registry a connection leaves is its calls replayed as registry events, so the lease theorems apply to it |
| Servers.Server.Dispatch | crates/forge3d/src/server.rs:174-380 | each request changes the registry by its event and is answered by its handler, with every error case |
| Servers.HeartbeatRenews | crates/forge3d/src/server.rs:306-319 | a heartbeat renews the lease of a registered agent from now and changes nothing else |
| Servers.RegisterEnters | crates/forge3d/src/server.rs:285-304 | a well-formed registration leaves an entry with the given process cut to 32 bits, lane or default, and excerpt, with its lease, and changes no other |
| Servers.DeregisterRemoves | crates/forge3d/src/server.rs:321-330 | a deregistration removes exactly its agent |
| Servers.OthersChangeNothing | crates/forge3d/src/server.rs:174-189 | every other request leaves the registry alone |
| Servers.ErrorsSay | crates/forge3d/src/server.rs:190-205 | which error and code each request that cannot be served is answered with |
| Servers.ResultsSay | crates/forge3d/src/server.rs:285-342 | what each request that is served is answered with |
| Servers.ServedUpToMalformed | crates/forge3d/src/server.rs:399-423 | the requests served are those before the first payload that does not parse or is not of version 2.0 |
| Servers.Server.Reply | crates/forge3d/src/server.rs:425-427 | dispatches a call and writes its response as one frame |
| Servers.Server.ServeNext | crates/forge3d/src/server.rs:402-427 | one pass through the connection loop |
| Compaction.SurvivorsInOrder | crates/forge_app/src/compact.rs:144-171 | the result is the kept prefix, the summary and the kept suffix in order, up to the first assistant's reasoning; the length falls iff range and dropped messages come to two or more |
| Compaction.SummaryStandsForRange | crates/forge_app/src/compact.rs:103-149 | where the range was there is one user message with the rendered text, no reasoning, not droppable, and the last usage of the range |
| Compaction.KeptIff | crates/forge_app/src/compact.rs:151-156 | kept are exactly the entries that are not droppable texts |
| Compaction.UsageUnchangedIff | crates/forge_app/src/compact.rs:136-156 | the reported usage is unchanged, whatever the numbers are, iff its carrier is not a droppable message outside the range |
| Compaction.DistinctUsageUnchangedIff | crates/forge_app/src/compact.rs:136-156 | when all usages differ, the same condition decides the one compaction at hand |
| Compaction.UsageLostExample | crates/forge_app/src/compact.rs:136-156 | a droppable attachment that takes the reported usage with it |
| Compaction.ReasoningHandedOn | crates/forge_app/src/compact.rs:109-171 | when the range held reasoning, the first assistant left has non-empty reasoning, its own or else the last of the range; otherwise nothing is changed |
| Compaction.ReasoningIsOriginal | crates/forge_app/src/compact.rs:124-171 | over any sequence of compactions and appended messages every reasoning in the context is one some appended message had |
| Compaction.UsageOverRuns | crates/forge_app/src/compact.rs:136-156 | while droppable messages carry no usage, no sequence of compactions changes the reported usage |
| Compaction.Context.CompressSingleSequence | crates/forge_app/src/compact.rs:59-174 | the in-place rewriting is the function the theorems are about; a failed rendering changes nothing |
| Compaction.Context.InjectReasoning | crates/forge_app/src/compact.rs:158-171 | gives the reasoning to the first assistant if it has none |
| Compaction.Retain | crates/forge_app/src/compact.rs:74-77 | keeps exactly the messages that are not droppable, in order |
| Compaction.FindLastReasoning | crates/forge_app/src/compact.rs:124-134 | the last non-empty text reasoning |
| Compaction.FindLastUsage | crates/forge_app/src/compact.rs:143-146 | the last usage |
| ShellQuoting.CommitRoundTripIff | crates/forge_app/src/git_app.rs:399-409 | splitting the command gives program git and exactly the message as one argument, whatever it holds, iff the message is not empty |
| ShellQuoting.CommitterOverrideWords | crates/forge_app/src/git_app.rs:402-405 | with the committer override the words are the two assignments and then those of the command without it |
| ShellQuoting.AnyArgumentsRoundTrip | crates/forge_app/src/tool_executor.rs:502-543 | quoting any list of arguments and splitting gives the list back, less the empty ones |
| ShellQuoting.EscapedText | crates/forge_app/src/tool_executor.rs:514-533 | within single quotes the escaped text comes back character by character (section 2.2.2 of the POSIX.1-2017 Shell Command Language) |
| ShellQuoting.QuotedText | crates/forge_app/src/git_app.rs:400-407 | a quoted text joins the current word and leaves the splitter unquoted |
| ShellQuoting.DoubleQuotedText | crates/forge_app/src/tool_executor.rs:524-533 | a text between double quotes joins the current word, blanks and single quotes included |
| ShellQuoting.EscapedCharacter | crates/forge_app/src/tool_executor.rs:508-520 | outside single quotes a backslash takes the next character into the word whatever it is |
| ShellQuoting.BlanksEndWords | crates/forge_app/src/tool_executor.rs:527-533 | outside quotes a blank or a tab ends the current word and no other character does |
| ShellQuoting.DoubleQuotedMessage | crates/forge_app/src/tool_executor.rs:502-543 | a double-quoted message is one argument |
| ShellQuoting.AssignmentIsTakenForProgram | crates/forge_app/src/git_app.rs:402-405 | with the committer override the splitter takes the first assignment for the program, so that form needs a shell |
| ShellQuoting.ParseShellCommand | crates/forge_app/src/tool_executor.rs:502-543 | the character loop is the automaton the round trips are about |
| SearchDedup.ScoresAreTotallyOrdered | crates/forge_app/src/search_dedup.rs:44-69 | NaN-free scores are totally ordered, and equal only when the same |
| SearchDedup.BeatsIff | crates/forge_app/src/search_dedup.rs:44-69 | which of two entries scores better: by higher relevance, then smaller distance, then earlier query, any relevance beating none and no distance beating any |
| SearchDedup.MissingDistanceWinsIff | crates/forge_app/src/search_dedup.rs:57-66 | an entry with a distance beats one without iff its relevance is greater, and otherwise loses |
| SearchDedup.MissingDistanceExample | crates/forge_app/src/search_dedup.rs:57-66 | a node is kept where it has no distance rather than where it has one |
| SearchDedup.KeptIff | crates/forge_app/src/search_dedup.rs:81-110 | an entry is kept iff its query holds the best score for its id |
| SearchDedup.EachIdInOneQuery | crates/forge_app/src/search_dedup.rs:71-74 | no id is lost; every id survives in exactly one query, the one holding its best score, and there as often as it was |
| SearchDedup.CountsKept | crates/forge_app/src/search_dedup.rs:102-109 | a query keeps all entries of an id it holds the best score for, repeated ones included, and none of any other |
| SearchDedup.AppearsOnceIff | crates/forge_app/src/search_dedup.rs:71-74 | an id appears at most once in the result iff the query holding its best score lists it at most once |
| SearchDedup.RepeatedEntryStays | crates/forge_app/src/search_dedup.rs:102-109 | a query that lists a node twice keeps both entries |
| SearchDedup.DedupIsIdempotent | crates/forge_app/src/search_dedup.rs:81-110 | a second run changes nothing |
| SearchDedup.DeduplicateResults | crates/forge_app/src/search_dedup.rs:81-110 | the two passes over the map leave in place exactly the entries to be kept, in order |
| SearchDedup.FindBest | crates/forge_app/src/search_dedup.rs:82-100 | after the first pass the map holds each id's best score |
| SearchDedup.RetainBest | crates/forge_app/src/search_dedup.rs:102-109 | the second pass keeps exactly the winning entries of a query |
| SyncPlans.PlanConvergesAndIsLeast | crates/forge_app/src/workspace_status.rs:99-119 | carrying out the plan turns the remote files into the local ones; the lists are disjoint and contained in those of every other plan that does |
| SyncPlans.StatusIff | crates/forge_app/src/workspace_status.rs:74-90 | each of the four statuses in terms of what is on either side |
| SyncPlans.LastEntryCounts | crates/forge_app/src/workspace_status.rs:54-68 | in the map of a list each path has the hash of its last entry |
| SyncPlans.KeysArePaths | crates/forge_app/src/workspace_status.rs:54-68 | and the paths of the map are those of the list |
| SyncPlans.ReplanIsEmptyIff | crates/forge_app/src/workspace_status.rs:31-119 | planning again after any plan was carried out gives two empty lists iff the base directory is absolute or empty |
| SyncPlans.RelativeBaseReplans | crates/forge_app/src/workspace_status.rs:31-38 | otherwise one new file is uploaded again by the next plan |
| SyncPlans.SortingIsUnique | crates/forge_app/src/workspace_status.rs:69-72 | a set of paths has one sorted listing, so the plan is determined |
| SyncPlans.LessIff | crates/forge_app/src/workspace_status.rs:69-72 | the order of paths is the lexicographic one |
| SyncPlans.AbsolutizeTwiceIff | crates/forge_app/src/workspace_status.rs:134-141 | absolutizing any list twice is absolutizing it once iff the base directory is absolute or empty |
| SyncPlans.AbsolutizedIsBelowBase | crates/forge_app/src/workspace_status.rs:134-141 | a relative path comes to lie directly below the base directory |
| SyncPlans.WorkspaceStatus.FileStatuses | crates/forge_app/src/workspace_status.rs:53-92 | one status per path of either side, sorted, each the right one |
| SyncPlans.WorkspaceStatus.GetSyncPaths | crates/forge_app/src/workspace_status.rs:99-119 | the two lists are exactly the paths to delete and to upload, each sorted |
| FileTracking.DetectedAreTheChanges | crates/forge_app/src/file_tracking.rs:42-96 | what is detected is exactly the files whose hash differs from the stored one, by path |
| FileTracking.OrderDoesNotShowIff | crates/forge_app/src/file_tracking.rs:33-36 | the list is the same for every order of completion iff no two changed files have paths that compare equal |
| FileTracking.Detect | crates/forge_app/src/file_tracking.rs:42-96 | the stream and the sort compute the function the theorems are about |
| FileTracking.SortByPath | crates/forge_app/src/file_tracking.rs:92-93 | a stable sort by path |
| FileTracking.Conversation.UpdateFileStats | crates/forge_app/src/changed_files.rs:27-80 | all stored hashes become the current ones, and one notice is added iff some file had changed |
| FileTracking.NoticeNamesTheChanges | crates/forge_app/src/changed_files.rs:53-80 | the notice names every changed file once and no other, by path |
| FileTracking.RecordHashes | crates/forge_app/src/changed_files.rs:43-51 | sets the stored hash of exactly the changed files |
| FileTracking.SecondUpdateIsSilent | crates/forge_app/src/changed_files.rs:24-40 | a second update on unchanged files finds nothing and adds no notice |

## Left out

- Throttles.AdaptiveThrottle.TryAcquire: integers are unbounded, so 64-bit saturation is not modelled; a call is one atomic step, as is `record_retry_after`. The source loads and stores its two counters one by one, so two calls that overlap can both be let through on one token: the rate bounds are about calls that do not overlap.
- CircuitBreakers.CircuitBreaker.Record: the failure count is unbounded; its 32-bit wrap after 2^32 failures in a row is not modelled, and `allow` and `record` are atomic steps.
- Bulkheads.Bulkhead.TryAcquire: interference is given as the counter values other threads leave between load and compare-exchange; memory orderings are not modelled (the steps are sequentially consistent).
- The conversions between clocks (`resilience.rs:338-369`): one integer clock stands for all of them. An opening time of zero or less, which the source reads as the present, is not treated apart.
- Orchestration.Orchestrator.Run: a run is a finite list of turns; a run that never ends is covered through its prefixes (one that uses up its turns is cancelled there, which happens only between turns).
- Orchestration.Orchestrator.ProcessReply: what a tool answers, the error tracker's limit, the follow-up test on tool names and the retry hint of a result are inputs, and the model labels `SetModel` writes are not part of a message.
- Orchestration.Orchestrator.RequestReply: retries of one model call count as one request; telemetry and the context transformers applied before the call are not modelled.
- ToolCalls.TestsDifferIff: characters other than ASCII and the Kelvin sign are taken to lower-case to themselves; none of them lower-cases to a letter of "task", so the comparison is the same.
- ToolCalls.ExecuteToolCalls: all notifications and hooks around one sequential call are a single success or failure, and the conversation they change is an input of the loop.
- Servers.Server.HandleConnection: I/O errors other than the end of the input are not modelled, and one connection is served at a time; concurrent connections interleave at registry events, which the registry theorems quantify over.
- Servers.Server.Dispatch: method names and error texts are constructors of a datatype, and the server has no drift detector, as when it is created.
- JSON parsing and serialisation: any parse and render functions are allowed, with the version check of `parse_request` kept.
- Frames.Writer.WriteFrame: write errors and flushing are not modelled.
- Compaction.Context.CompressSingleSequence: the range and the summary text are inputs; the choice of the range and the summary template are not modelled, and an out-of-bounds range, on which the source panics, is excluded.
- SearchDedup.DeduplicateResults: scores are reals, so NaN is excluded (with it the comparison is not transitive).
- SyncPlans.WorkspaceStatus.FileStatuses: paths are Unix paths and strings; lossy conversion is not modelled.
- FileTracking.Detect: path comparison is any ranking of strings, and the file system does not change between the reads of one call.
- FileTracking.Conversation.UpdateFileStats: a notice is the list of its paths; its wording and display paths are not modelled.
- The pidfile, socket setup and task cancellation of forge3d, sync progress counting, and the rest of the repository: plumbing or easy members.
