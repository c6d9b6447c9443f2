# Verified model of the Creation OS protocols

A Dafny 4.11 model of the stateful parts of Creation OS, with proofs of what they promise over whole
runs: every interleaving, every crash point, every chunking, every restart. Each module keeps the
form of its source. Code that changes state step by step is a class whose methods are proved equal
to a specification function; the whole-run results are lemmas about runs of those functions.
`dafny verify dfyconfig.toml` checks everything.

## The components

- **Mission plans** (`MissionDag`). The depth-first validator accepts exactly the plans that are
  dependency DAGs, and the keys it finishes form a topological order. A closed relation is acyclic
  exactly when such an order exists.
- **Source excerpts** (`SourceExcerpt`). A binary search over a test that is not monotone. The
  excerpt always fits and is never shorter than the longest fitting truncated prefix. It is the best
  possible one exactly when the text does not fit *only* as a whole; a text that does is exhibited.
- **Execution gateway** (`Replay`, `Gateway`, `Text`). Nonces are granted, and work executed, at most
  once over every run with restarts, exactly when they do not end in CR, because reading lines back
  strips one CR. Permits are antitone in one process, control messages are joins, and denied requests
  leave no trace in memory. A restart undoes every kill, revocation and version floor; what it permits
  was permitted before exactly if none of these, nor a remembered nonce, stood against it. Work is reported
  as executed exactly for a request that passed, is in order, and that the range answered, with yes where
  it was asked to verify something.
- **Capability runtime** (`CapabilityPolicy`, `Sorting`, `Providers`, `CapabilityRuntime`,
  `ProviderEffects`). A request is authorized exactly if it is permitted by an order-free condition, and
  denied for the first broken rule. Every entry into the gateway was made by a call that was permitted and
  that the economic gate let pass. Calls interleave between transactions and crash anywhere. No idempotency key
  enters the gateway twice, finished rows never change, and every returned result is the one recorded
  by the only entry. Below it, provider order does not depend on registration order, and preferred
  providers come first exactly when no blank or repeated name stands before the last preferred one. An
  execution attempts at most one provider exactly when the adapter declares an external effect or
  AT_MOST_ONCE or has no second candidate; a request that is at-most-once only by its own declaration
  fails over. Over whole runs of routed adapters, a key has reached at most one provider, under every
  behaviour of the providers that ends each entry as it was recorded, exactly if no entry under it came
  to an adapter that may fail over; an entry the gateway itself refused reaches no provider.
- **Chronicle stream** (`JsonText`, `SseFraming`, `ChronicleStream`). Events are written as JSON objects
  and read back. Frames are cut out of arbitrary chunks, interpreted as printed, and resumed from the
  last delivered position. Over a gap-free log the client delivers exactly the next events in order and
  is never told to resync. Over a log with gaps a poll notices a gap exactly when it stands right behind
  a cursor other than zero; every other one is skipped in silence. A resync says
  why, and stops the client for good. The format is the LF-only subset of
  sections 9.2.5 and 9.2.6 of the WHATWG HTML Living Standard.
- **Response cache** (`ResponseCache`, `CacheHistory`, `SingleFlight`, `CachingRouter`, `RouterRuns`). In
  EXACT mode Redis and PostgreSQL together answer as one map of payload, tags, expiry and validity,
  with at most one second of grace after an expiry, and exactly when there is some is proved; this holds
  of each answer a call takes in any interleaving. Any tag
  ever admitted under a shared key reaches its entry, and what is gone stays gone. In every interleaving
  of whole router calls each answer is the call's own provider's or was admitted for the same scope,
  intent, versions and authorization; every call that ends leaves no live lock behind; and at most one
  call asks a provider under a running lease. A key can be locked anew exactly when Redis has lost the
  locks of all who believe to hold it. Each decision of a lookup has one condition; a semantic hit
  needs a neighbour at least as similar as configured, and may come from another query or sensitivity, as
  the search does not compare those.
- **Cyber range** (`RangeCatalog`, `RangeController`). Both catalog files are checked field by field.
  Campaigns complete exactly their prefix of scenarios, active scenarios have all their prerequisites
  completed, and restoring a save reproduces both stores. Accepted campaigns are prerequisite-closed
  and acyclic although the catalog check alone lets cycles through; a catalog is acyclic exactly when
  some order of all its scenarios passes the campaign check. Whatever
  the snapshots are, every reachable state is sound exactly if the accepted ones hold only campaign
  records that stand at an index of their campaigns. A campaign in progress does
  not keep its scenario active: every new start of a campaign empties the scenario store, and exactly
  when the current scenario of another one still stands is proved. Records say what the catalog declares,
  and replies never tell the variant of a blind scenario.
- **Diagnostics** (`DiagnosticRules`, `DiagnosticWorker`, `DiagnosticJournal`, `DiagnosticPublisher`,
  `DiagnosticService`). The
  hysteresis machine meets a declarative specification on every history. Episodes stay paired through
  refused appends and deaths of the worker exactly if in every cycle each announced episode is
  journalled if and only if the rules are saved; both ways to fail are shown. The journal stays within
  its bound and loses nothing unacknowledged; its drop count is exact unless a record is stored while
  only the marker file knew of a refusal. Publishing cycles, interrupted anywhere, converge to the
  crash-free result, with exact counts despite the 256-identifier window and each incident in the state of
  its last note. Worker and publisher share one journal: over rounds that keep up, once nothing is pending,
  an incident is published as open exactly if a saved row is open with its episode, or the worker died
  between the observation and the note of its opening; such an incident stays open for good. An incident is about the resource whose row is open with its episode.
- **Credentials** (`Credentials`). In every interleaving of processes, with any responses of the server,
  at most one call is past the lock and calls queued behind a refresh reuse its token. A replaced refresh
  token stays out of the file exactly if the server never issues one again, and then none is submitted
  again. A request leaves its token in the file exactly when the process dies before the write or the
  response neither brings another refresh token nor declares this one unusable: one that lost the scope,
  one without a refresh token, and one that repeats the submitted token are among them; the next stale call
  then submits it again. Rotation is that of section 6 of RFC 6749.

## Modelling choices

Stores are maps and sequences; times are integers (milliseconds in the cache, seconds elsewhere).
Hashes are injective, so a cache key is its own preimage; the signature check is an arbitrary
predicate. Clocks, random identifiers, adapter answers, network responses and disk failures are
parameters. Identifiers that the code draws at random (cache tokens, record and snapshot identifiers) do not repeat:
an operation that would repeat one is no step of a run. The server's responses, refresh tokens among
them, are arbitrary. All capability
adapters are registered before the calls of a run. A log line is written whole or not at all. One lookup, admission or invalidation of the cache is atomic, with one
time; a Redis failure is the loss of copies or locks. Between these steps the calls of the router
interleave. JSON numbers are integers.

## Model

| member | source | states |
|---|---|---|
| MissionDag.ValidateMissionSteps | backend/app/core/mission_dag.py:13-44 | accepts exactly the plans with distinct keys and positions, known dependencies and no cycle; each refusal names a rule that is broken |
| MissionDag.Search.Visit | backend/app/core/mission_dag.py:32-41 | terminates, keeps the finished keys a topological order, restores `visiting`; a refusal exhibits a cycle |
| MissionDag.TopologicalOrderMeansAcyclic | backend/app/core/mission_dag.py:29-44 | a relation listed in topological order has no cycle |
| MissionDag.AcyclicExactly | backend/app/core/mission_dag.py:29-44 | a closed relation is acyclic exactly when all of it can be listed in topological order |
| MissionDag.PathDescends | backend/app/core/mission_dag.py:38-39 | along a dependency path positions in the order strictly fall |
| MissionDag.RevisitIsCycle | backend/app/core/mission_dag.py:33-34 | meeting a key that is being visited exhibits a dependency cycle |
| MissionDag.DependenciesOfUniqueKeys | backend/app/core/mission_dag.py:21-22 | with unique keys the dictionary holds each step's own dependencies |
| MissionDag.HasDuplicate | backend/app/core/mission_dag.py:15-20 | the size comparison finds exactly the repeated entries |
| SourceExcerpt.MissionSourceContent | frontend/src/missionApi.ts:19-31 | fits 3901 characters and 8000 bytes, at least the longest fitting truncated prefix, optimal exactly unless the text fits only whole |
| SourceExcerpt.BestExactly | frontend/src/missionApi.ts:24-30 | a finished search is beaten by no candidate exactly when the text does not fit only as a whole |
| SourceExcerpt.TruncatedFitIsMonotone | frontend/src/missionApi.ts:25-29 | among truncated prefixes a shorter one fits when a longer one does |
| SourceExcerpt.WholeAgainstLastCut | frontend/src/missionApi.ts:22 | dropping the ellipsis trades three bytes for the last character |
| SourceExcerpt.ExcerptBytes | frontend/src/missionApi.ts:22-27 | serialized size of an excerpt from the costs of its characters |
| SourceExcerpt.CostIsEncodedSize | frontend/src/missionApi.ts:22-27 | the cost of a text is the number of UTF-8 bytes of its JSON text, escapes included |
| SourceExcerpt.Utf8ReadsBack | frontend/src/missionApi.ts:21-22 | the bytes of a code point read back as it |
| SourceExcerpt.EscapesReadBack | frontend/src/missionApi.ts:27-27 | every escape stands for its code point |
| SourceExcerpt.EscapedIsClean | frontend/src/missionApi.ts:27-27 | no control character and no lone surrogate stands in an escaped text |
| SourceExcerpt.SomeTextFitsOnlyWhole | frontend/src/missionApi.ts:24-30 | a text that fits whole but is cut by the search |
| Replay.FileReplayStore.Open | security_gateway/src/replay.rs:35-44 | a restart remembers exactly the lines read back from the file |
| Replay.FileReplayStore.Reserve | security_gateway/src/replay.rs:48-61 | grants an acceptable unseen nonce only behind a durable line; a failed write refuses it |
| Replay.ReplayGuard.Consume | security_gateway/src/replay.rs:17-19 | grants a nonce the first time and remembers it |
| Replay.AppendedLine | security_gateway/src/replay.rs:38-53 | a written line reads back without its final CR, behind the earlier lines |
| Replay.UnfinishedLineIsRead | security_gateway/src/replay.rs:38-40 | a last line without an end is read as it stands |
| Replay.ReserveKeeps | security_gateway/src/replay.rs:48-61 | every reservation keeps granted within seen and within the file |
| Replay.GrantedAtMostOnce | security_gateway/src/replay.rs:34-61 | over all runs with restarts a nonce is granted at most once if and only if it does not end in CR or can never be granted |
| Replay.CrNonceIsGrantedTwice | security_gateway/src/replay.rs:38-40 | a nonce ending in CR is granted again after a restart |
| Replay.RefusedAfterRestart | security_gateway/src/replay.rs:38-50 | exactly which logged lines make a nonce refused after a restart |
| Replay.FileIsItsLines | security_gateway/src/replay.rs:22-61 | over every run, whatever the nonces and failed writes, the file answers as the set of its lines |
| Replay.FileRefinesGuard | security_gateway/src/replay.rs:17-61 | while writes work and nonces do not end in CR the file answers across restarts as a guard that never restarts |
| Gateway.Server.EvaluateRequest | security_gateway/src/validation.rs:61-121 | the chain of checks, with the nonce spent last |
| Gateway.Server.HandleLine | security_gateway/src/server.rs:38-96 | one message in, one reply out, new state as specified |
| Gateway.PermitMeansAuthorized | security_gateway/src/validation.rs:68-120 | a permit is an order-free authorization plus a durable nonce; refusals before the nonce change nothing |
| Gateway.FirstBrokenRuleDenies | security_gateway/src/validation.rs:59-119 | a request is denied for a reason exactly when that rule is broken and none before it is |
| Gateway.PermitsAreAntitone | security_gateway/src/validation.rs:31-42 | what is permitted later, after more messages, was permitted earlier |
| Gateway.RunTightens | security_gateway/src/server.rs:37-93 | messages only ever tighten the state |
| Gateway.RestartForgetsAllButNonces | security_gateway/src/validation.rs:42-53 | what a restarted process permits was permitted before exactly if no kill, revocation, floor or remembered nonce stood against it |
| Gateway.RestartUndoesControl | security_gateway/src/server.rs:45-93 | exactly the matching control messages refuse an authorized request, and a restart undoes each of them |
| Gateway.ControlCommutesAndRepeats | security_gateway/src/server.rs:45-93 | control messages commute and are idempotent |
| Gateway.ControlIsJoin | security_gateway/src/server.rs:45-93 | each control message joins a fixed value into the state |
| Gateway.DeniedRequestsLeaveNoTrace | security_gateway/src/validation.rs:59-121 | erasing denied requests changes no other reply and no remembered state |
| Gateway.ExecutedAtMostOnce | security_gateway/src/server.rs:98-167 | over all runs with restarts work runs at most once per nonce if and only if the nonce does not end in CR or can never be granted |
| Gateway.CrNonceExecutesTwice | security_gateway/src/server.rs:98-167 | a restarted process executes an authorized request with such a nonce again |
| Gateway.ExecutionMeansAuthorized | security_gateway/src/server.rs:98-170 | an execution id is reported only for an authorized range request whose tool is the capability |
| Gateway.ExecutesExactly | security_gateway/src/server.rs:98-180 | an execution id is reported exactly for an authorized, durable range request in order that the range answered, with yes for the two verify tools |
| Gateway.FailedVerificationIsRefused | security_gateway/src/server.rs:158-166 | a verification the range answered with no is refused and says which it was |
| Gateway.PermitsWithoutExecution | security_gateway/src/server.rs:186-215 | a permit without an execution is given exactly to a health check of an isolated sandbox; every other reply is a refusal with one reason |
| Gateway.PassedRefusals | security_gateway/src/server.rs:110-215 | each reason for refusing an authorized request holds exactly under its condition |
| Gateway.UnpassedIsRefused | security_gateway/src/server.rs:98-109 | a request that does not pass is refused with the name of the first broken rule |
| Gateway.RangeResetsExactly | security_gateway/src/server.rs:65-82 | the range is reset exactly for a mission that a kill covers, by a range that answers |
| Gateway.ControlIsAcknowledged | security_gateway/src/server.rs:38-93 | control messages are answered with ok; what is not understood changes nothing |
| Gateway.IncompleteRequestsAreRefused | security_gateway/src/server.rs:98-105 | a request without a readable envelope or action is refused and changes nothing |
| Gateway.NamesTellRulesApart | security_gateway/src/server.rs:106-109 | a refusal tells which rule was broken |
| CapabilityPolicy.EffectiveClass | backend/app/capabilities/policy.py:44-49 | the stronger of the requested and the required guarantee |
| CapabilityPolicy.AuthorizedExactly | backend/app/capabilities/policy.py:52-104 | a request is authorized exactly if it has not expired, is allowed and not denied, in scope in action and resource, and has the effects and the key that its adapter's or its own word asks for |
| CapabilityPolicy.FirstBrokenRuleDenies | backend/app/capabilities/policy.py:79-104 | a request is denied for a reason exactly when that rule is broken and none before it is |
| CapabilityPolicy.AuthorizationIsMonotone | backend/app/capabilities/policy.py:79-104 | authorized under a declaration means authorized under every weaker one, at that time or earlier |
| CapabilityPolicy.RequestCannotWeaken | backend/app/capabilities/policy.py:52-104 | what an authorized request must satisfy whatever the model claims about it |
| Providers.Build | backend/app/capabilities/providers.py:81-110 | built exactly from non-empty, same-capability, uniquely named providers agreeing on effects |
| Providers.Strongest | backend/app/capabilities/providers.py:107-110 | the strongest minimum class among the providers |
| Providers.CandidatesAreTheEligible | backend/app/capabilities/providers.py:112-119 | candidates are exactly the eligible providers, in key order |
| Providers.CandidatesExactly | backend/app/capabilities/providers.py:36-62 | work with an outside effect goes only to providers in production and reviewed, other work also to shadow ones; all are documented, work, and offer the action |
| Providers.CandidatesInOrder | backend/app/capabilities/providers.py:65-75 | candidates are tried by rank, then health, success, cost, latency and name |
| Providers.RegistrationOrderIsIrrelevant | backend/app/capabilities/providers.py:65-75 | unique names make the candidate order independent of registration order |
| Providers.PreferredComeFirst | backend/app/capabilities/providers.py:65-69 | preferred names rank before all others if and only if no blank or repeat precedes the last of them |
| Providers.RanksCount | backend/app/capabilities/providers.py:66 | the rank table is as long as the list exactly when all names are distinct and not blank |
| Providers.TryInOrder | backend/app/capabilities/providers.py:136-144 | only unavailability moves on, and only where failover is safe |
| Providers.Attempted | backend/app/capabilities/providers.py:132-143 | the attempted providers are a prefix of the candidates, cut at the first that does not fail over |
| Providers.Execute | backend/app/capabilities/providers.py:121-158 | which providers were attempted and what the caller gets; at most one attempt if the adapter declares an external effect or AT_MOST_ONCE |
| Providers.OutcomeComesFrom | backend/app/capabilities/providers.py:132-158 | the caller gets what the first candidate that does not fail over gave, labelled with the adapter's name and, unless it names one, the candidate's |
| Providers.FailuresAreTold | backend/app/capabilities/providers.py:121-158 | no candidate and no available candidate are told as such |
| Providers.OneAttemptExactly | backend/app/capabilities/providers.py:132-143 | at most one provider is attempted, whatever they do, exactly when the adapter's declaration forbids failover or there is no second candidate |
| Providers.AtMostOnceRequestFailsOver | backend/app/capabilities/providers.py:132-143 | a request that is at-most-once only by its own declaration is attempted at two providers |
| Providers.SameOutcomeFromTwo | backend/app/capabilities/providers.py:132-158 | where failover is safe and there are two candidates, every outcome of an execution is also one of an execution that attempted two, as a result that already names a provider keeps that name |
| ProviderEffects.NewEntryExplained | backend/app/capabilities/gateway.py:36-45 | an entry that the gateway did not refuse itself records how its routed adapter ended |
| ProviderEffects.RoutedRunsAreExplained | backend/app/capabilities/gateway.py:36-45 | after any run over routed adapters some behaviour of the providers explains every entry that came to its adapter |
| ProviderEffects.KeyReachesOneProviderExactly | backend/app/capabilities/providers.py:121-158 | after any interleaved run with crashes a key has reached at most one provider, under all behaviours that explain what was recorded, exactly if no entry under it came to an adapter that may fail over |
| Providers.RoutedAuthorizationCoversProviders | backend/app/capabilities/providers.py:99-110 | authorized for the routed capability means authorized under each provider's own declaration |
| CapabilityRuntime.CapabilityGateway.Register | backend/app/capabilities/gateway.py:31-34 | a name is registered once and its declaration stands |
| CapabilityRuntime.DeclaredExactly | backend/app/capabilities/gateway.py:27-29 | a registered adapter is judged by its own declaration, an unknown name as the most dangerous case |
| CapabilityRuntime.RegisteringOnlyRelaxes | backend/app/capabilities/gateway.py:27-34 | however many adapters are registered, an authorized request stays authorized |
| CapabilityRuntime.FindByKey | backend/app/capabilities/runtime.py:88-92 | finds a row with the key exactly when there is one |
| CapabilityRuntime.InvocationTable.Insert | backend/alembic/versions/0006_capability_invocations.py:47-53 | inserts unless a row with the same non-null key exists |
| CapabilityRuntime.ConflictsExactly | backend/app/capabilities/runtime.py:106-122 | an insert conflicts exactly with a row of the same key |
| CapabilityRuntime.EntersExactly | backend/app/capabilities/runtime.py:149-156 | a step enters the gateway exactly if the call is ready and does not crash |
| CapabilityRuntime.Call.Advance | backend/app/capabilities/runtime.py:58-224 | each resumption of a call performs exactly its next transaction |
| CapabilityRuntime.StepKeeps | backend/app/capabilities/runtime.py:86-224 | every transaction of every caller, and every crash, keeps ownership, entries, statuses and verdicts consistent |
| CapabilityRuntime.EnteredAtMostOncePerKey | backend/app/capabilities/runtime.py:86-155 | in every interleaving with crashes no key enters the gateway twice |
| CapabilityRuntime.ReplaysReturnTheRecordedResult | backend/app/capabilities/runtime.py:322-334 | a returned result stands in a row with the call's key, and the only entry under the key produced it |
| CapabilityRuntime.FinishedRowsNeverChange | backend/app/capabilities/runtime.py:135-223 | a row with a final status never changes again |
| CapabilityRuntime.TakenKeyIsResolved | backend/app/capabilities/runtime.py:93-122 | a taken key ends a later call at once: the recorded result, reconciliation, or a refusal naming the row's status (a failed row without a result among them) |
| CapabilityRuntime.LostRaceIsResolved | backend/app/capabilities/runtime.py:100-122 | a claim whose key was taken meanwhile is resolved by that row if at most once, and a conflict otherwise |
| CapabilityRuntime.UninterruptedCallRecords | backend/app/capabilities/runtime.py:149-224 | a call nobody interrupts returns the adapter's answer and records it in its own row |
| CapabilityRuntime.AdapterRunsExactly | backend/app/capabilities/gateway.py:36-45 | the adapter runs exactly if the request is permitted at that moment and the adapter is registered |
| CapabilityRuntime.RefusedAuthorizationDenies | backend/app/capabilities/runtime.py:68-86 | a request that is not permitted leaves a denied row that says why, unless its key is taken, and goes no further |
| CapabilityRuntime.RefusedGateDenies | backend/app/capabilities/runtime.py:124-147 | a call the economic gate refuses raises, its row is denied for that reason, and the gateway is not entered |
| CapabilityRuntime.UninterruptedRefusal | backend/app/capabilities/runtime.py:68-147 | so does a call from its start |
| CapabilityRuntime.FailureIsRecorded | backend/app/capabilities/runtime.py:149-195 | a call whose adapter raised leaves its row uncertain if the effective class is at most once, and failed otherwise |
| CapabilityRuntime.UninterruptedFailure | backend/app/capabilities/runtime.py:68-195 | so does a call from its start, also when no adapter is registered |
| CapabilityRuntime.UnsettledStaysOpen | backend/app/capabilities/runtime.py:158-218 | what cannot be settled raises and leaves the row open |
| CapabilityRuntime.EntriesAreLicensed | backend/app/capabilities/runtime.py:68-156 | over every run each entry was made by a call permitted at its start, then let pass by the economic gate with that row, and ran its adapter only if permitted once more |
| JsonText.ValueReadsBack | backend/app/api/system_state.py:153 | every JSON value reads back from its text as itself, whatever follows |
| JsonText.DecodeEncode | backend/app/api/system_state.py:141-153 | an event with all its fields reads back from its JSON text as itself |
| JsonText.NothingMayFollow | frontend/src/api.ts:404-407 | an event's text with anything behind it is no event |
| JsonText.EncodedIsOneLine | backend/app/api/system_state.py:153-154 | the JSON text is one line with nothing to trim |
| SseFraming.FrameBuffer.Receive | frontend/src/api.ts:390-392 | the frames with their empty lines and the new buffer make up the old buffer and the chunk; each frame ends at the first empty line, and the buffer has none |
| SseFraming.CutsAreUnique | frontend/src/api.ts:390-392 | a text is cut in one way only |
| SseFraming.ReceiveAll | frontend/src/api.ts:383-392 | any chunking yields the frames and rest of the whole text |
| SseFraming.SplitInTwo | frontend/src/api.ts:390-392 | cutting in two steps with the rest carried over is cutting at once |
| SseFraming.ReadFrame | frontend/src/api.ts:395-400 | event type and data of a frame |
| SseFraming.FramesSignalExactly | frontend/src/api.ts:393-408 | which frames are skipped, ask for a resync, deliver an event, or break the connection off |
| SseFraming.InterpretPrinted | backend/app/api/system_state.py:136-158 | each frame the server prints is read as what it was printed for |
| SseFraming.LiveIsFaithful | frontend/src/api.ts:393-409 | printed frames contain no empty line and are read back faithfully |
| SseFraming.PrintedReadsBack | frontend/src/api.ts:383-409 | printed items read back in order, one signal each, in any chunks |
| ChronicleStream.ServerStream.PollOnce | backend/app/api/system_state.py:123-159 | one turn of the server loop: resync, page or keepalive |
| ChronicleStream.PollOfGapFree | backend/app/api/system_state.py:103-139 | over a gap-free log the next page is printed, and a resync is asked for exactly when the cursor is beyond the head |
| ChronicleStream.Client.Receive | frontend/src/api.ts:387-410 | delivers the events of the complete frames and moves its position |
| ChronicleStream.Client.Reconnect | frontend/src/api.ts:373-384 | a new connection starts at the last delivered position with an empty buffer |
| ChronicleStream.SignalsUntilTheEnd | frontend/src/api.ts:387-410 | the client delivers all events before the first signal that ends the stream, stands at the last, and is stopped by a resync |
| ChronicleStream.ReconnectsFromPosition | frontend/src/api.ts:370-384 | a lost connection takes all unread text with it and the next one starts behind the last delivered event |
| ChronicleStream.StoppedForGood | frontend/src/api.ts:373-410 | a client that a resync has stopped never delivers again |
| ChronicleStream.StoppedIsDisconnected | frontend/src/api.ts:373-418 | over every run a client that has stopped or broken off is not connected |
| ChronicleStream.ResyncTellsWhy | backend/app/api/system_state.py:103-118 | a poll that ends the stream prints one resync with the reason and both numbers, and leaves the cursor |
| ChronicleStream.NextKeeps | frontend/src/api.ts:369-426 | every append, poll, chunk and disconnect keeps the unconsumed text printing exactly the log between position and cursor |
| ChronicleStream.DeliversExactlyOnceInOrder | frontend/src/api.ts:369-426 | exactly the events after the start, in order, no duplicate, no gap, no resync |
| ChronicleStream.LiveStreamDeliversExactlyOnceInOrder | frontend/src/api.ts:369-426 | so for the text the server prints and the client reads |
| ChronicleStream.UndisturbedPageIsDelivered | backend/app/api/system_state.py:121-156 | an undisturbed connection delivers the next page |
| ChronicleStream.GapsAreNoticedOnlyAtTheCursor | backend/app/api/system_state.py:103-133 | over increasing positions a resync is asked for exactly when the cursor is not zero, there are newer events, and none stands right behind it |
| ChronicleStream.SkippedInSilence | backend/app/api/system_state.py:111-156 | a page skips a missing position exactly when its cursor moves on by more than the events it prints |
| ChronicleStream.GapInsidePageIsNotNoticed | backend/app/api/system_state.py:111-118 | a log whose gap is streamed silently, and noticed by resuming at it |
| ResponseCache.SameKeyMeansSameIdentity | backend/app/cache/fingerprint.py:80-83 | requests share a key exactly when query and context agree but for tags |
| ResponseCache.RedisCacheStore.AcquireLock | backend/app/cache/redis_store.py:45-53 | takes the lock exactly when none is live |
| ResponseCache.RedisCacheStore.ReleaseLock | backend/app/cache/redis_store.py:10-16 | deletes only a live lock with the same token |
| ResponseCache.CacheRepository.Upsert | backend/app/cache/repository.py:77-114 | overwrites the entry and merges its tags |
| ResponseCache.CacheRepository.InvalidateTags | backend/app/cache/repository.py:123-136 | invalidates exactly the valid rows with a given tag in scope |
| ResponseCache.CacheOrchestrator.Find | backend/app/cache/orchestrator.py:127-380 | one lookup through exact tiers, semantic search and lock, in every mode |
| ResponseCache.LookupDecides | backend/app/cache/orchestrator.py:127-320 | bypass, Redis hit, row hit, semantic hit and revalidation each exactly under one condition; a semantic hit needs the SEMANTIC mode and a similar enough neighbour |
| ResponseCache.MissOrWait | backend/app/cache/orchestrator.py:324-380 | otherwise a lookup waits exactly for a held lock, or misses, having taken it in the modes that reuse answers |
| ResponseCache.HitsAnswerWith | backend/app/cache/orchestrator.py:165-300 | whose payload each kind of hit returns |
| ResponseCache.LookupCountsHits | backend/app/cache/orchestrator.py:200-270 | a lookup counts one hit on the row it answered with and changes no other |
| ResponseCache.LookupKeepsRows | backend/app/cache/orchestrator.py:127-380 | a lookup adds and removes no row |
| ResponseCache.LookupKeepsCopies | backend/app/cache/orchestrator.py:127-380 | every other copy stays as it was |
| ResponseCache.LookupPromotes | backend/app/cache/orchestrator.py:188-200 | a lookup copies the standing row of its key to Redis for as long as it has left, unless a copy answers |
| ResponseCache.CacheOrchestrator.Admit | backend/app/cache/orchestrator.py:382-474 | stores an admissible response in both tiers and releases the lock |
| ResponseCache.AdmissionStoresExactly | backend/app/cache/orchestrator.py:382-474 | a response is stored in both tiers exactly if the lookup had a key and the response is fit to be reused |
| ResponseCache.AdmittedIsFound | backend/app/cache/orchestrator.py:382-474 | what was stored answers the next lookups of the same query and context until it expires |
| ResponseCache.CacheOrchestrator.Abort | backend/app/cache/orchestrator.py:476-482 | releases the lookup's lock, if it took one |
| ResponseCache.CacheOrchestrator.Invalidate | backend/app/cache/orchestrator.py:484-508 | removes the tagged entries from both tiers and counts them |
| ResponseCache.InvalidatedOnce | backend/app/cache/repository.py:123-137 | an invalidation asked again finds nothing to count |
| ResponseCache.SimilarityIsBounded | backend/app/cache/orchestrator.py:259-259 | the similarity lies within plus and minus one and is one minus the distance there |
| ResponseCache.WaitForExact | backend/app/cache/redis_store.py:58-67 | the answer is the first that any poll up to the end of the wait finds, and none only when no poll finds one |
| CacheHistory.RunKeeps | backend/app/cache/orchestrator.py:171-236 | after any run copies are backed by valid rows and outlive them by at most a second; rows carry exactly the tags ever admitted |
| CacheHistory.HitsAreJustified | backend/app/cache/repository.py:49-66 | every hit answers with a payload admitted for a compatible context, under the same key unless semantic |
| CacheHistory.PeerHitsAreJustified | backend/app/cache/orchestrator.py:326-350 | so does an answer polled for while a peer held the lock, and the one map allows it |
| CacheHistory.RunRefines | backend/app/cache/orchestrator.py:443-508 | the rows are the map that admissions and invalidations alone produce |
| CacheHistory.ExactLookupsRefineTheMap | backend/app/cache/orchestrator.py:171-236 | every EXACT lookup answers as that one map may |
| CacheHistory.GraceExactly | backend/app/cache/orchestrator.py:208-210 | a promoted copy outlives its row exactly when under a second was left, an admitted one exactly when the lifetime is under a second |
| CacheHistory.AnsweredAfterExpiry | backend/app/cache/orchestrator.py:171-236 | exactly when a lookup is still answered after the row's expiry |
| CacheHistory.InvalidationReachesEveryTag | backend/app/cache/repository.py:104-136 | any tag ever admitted under a key removes its entry from both tiers |
| CacheHistory.GoneStaysGone | backend/app/cache/orchestrator.py:484-508 | a removed entry stays removed through every further run without an admission under its own key |
| CacheHistory.InvalidationIsPrecise | backend/app/cache/repository.py:123-136 | entries outside the tags or the scope are untouched |
| SingleFlight.AtMostOneLiveHolder | backend/app/cache/redis_store.py:45-56 | a key has at most one live holder, whose lock is the stored one, also when Redis loses locks |
| SingleFlight.FreeExactlyWhenLost | backend/app/cache/redis_store.py:45-53 | a key can be locked anew exactly when everyone who believes to hold it has had the lock lost |
| SingleFlight.NothingLostWithoutLoss | backend/app/cache/redis_store.py:45-56 | in runs without a loss in Redis every unreleased, unexpired holder still has its lock |
| SingleFlight.ReleaseSparesOthers | backend/app/cache/redis_store.py:10-16 | a late release never deletes the successor's lock; a timely one frees the key |
| SingleFlight.NextKeeps | backend/app/cache/redis_store.py:45-56 | acquisitions, releases, losses and the passing of time keep live holders and unexpired locks one to one |
| CachingRouter.Generation.Advance | backend/app/cache/routing.py:39-67 | each resumption of a call performs exactly its next step: lookup, poll, or the end with admission or abort |
| CachingRouter.PollsUntilTheLast | backend/app/cache/orchestrator.py:326-350 | a waiting call is answered by the first live copy it polls, and after the last poll asks its provider without a lock |
| CachingRouter.FailedLookupGoesOn | backend/app/cache/routing.py:39-52 | a lookup that raises leaves the stores alone and the call goes on without the cache |
| CachingRouter.TakenLock | backend/app/cache/orchestrator.py:326-331 | a lookup takes only its own lock, and only when the key is free |
| CachingRouter.EveryEndReleases | backend/app/cache/routing.py:52-67 | whatever others did in between, the end of a call changes the locks exactly by releasing its own |
| RouterRuns.NextKeepsLocks | backend/app/cache/routing.py:39-67 | every step of every call, loss, invalidation and passing of time keeps stored locks and callers' leases together |
| RouterRuns.EveryPathReleasesItsLock | backend/app/cache/routing.py:39-67 | in every interleaving a call that has ended short of cancellation has left no unexpired lock behind |
| RouterRuns.OneCallAtATime | backend/app/cache/orchestrator.py:326-350 | at most one call at a time asks a provider under a running lease of a key |
| RouterRuns.EndsSpareOthers | backend/app/cache/redis_store.py:10-16 | the end of one call never takes the lock of another whose lease runs |
| RouterRuns.EveryAnswerIsJustified | backend/app/cache/routing.py:39-67 | in every interleaving each call returns its own provider's outcome or a payload admitted for a compatible context, under its own key or, in SEMANTIC mode, that of a neighbour the search found similar enough |
| RouterRuns.AnswersRefineTheMap | backend/app/cache/routing.py:39-67 | in EXACT mode every answer taken from the cache in any interleaving is one the one map may give at that moment |
| RouterRuns.MissesRefineTheMap | backend/app/cache/orchestrator.py:127-350 | in EXACT mode a lookup in any interleaving that finds no answer found none the map had to give |
| RouterRuns.ShadowIsTransparent | backend/app/cache/routing.py:39-67 | with an off or shadow cache each call returns exactly its provider's outcome |
| RangeCatalog.ValidateCatalog | cyber_range/controller/app.py:42-100 | accepts exactly a supported file of valid manifests with unique ids and declared prerequisites other than themselves |
| RangeCatalog.IdsAreFileNames | cyber_range/controller/app.py:14-14 | an accepted identifier is the name of one file, with no directory in it |
| RangeCatalog.ManifestsSaySomething | cyber_range/controller/app.py:34-39 | an accepted manifest has objectives and criteria, each saying something in at most 256 characters |
| RangeCatalog.ShortTextsAreValid | cyber_range/controller/app.py:34-39 | lists of such texts are valid, and empty or absent only where that is allowed |
| RangeCatalog.ForeignFilesAreRefused | cyber_range/controller/app.py:44-46 | a file of another schema or environment is refused, one that names no environment is not |
| RangeCatalog.DottedIdsAreIds | cyber_range/controller/app.py:14-14 | dots, underscores and hyphens are allowed behind the first character |
| RangeCatalog.DeclaredAsWritten | cyber_range/controller/app.py:60-100 | accepted scenarios are declared as written, and a blind one has at least two different variants |
| RangeCatalog.ValidateCampaigns | cyber_range/controller/app.py:112-145 | accepts exactly a supported file of valid campaigns with unique ids, each an order of declared distinct scenarios that satisfies all prerequisites |
| RangeCatalog.CampaignIsPrerequisiteClosed | cyber_range/controller/app.py:139-144 | everything a scenario needs stands earlier in the campaign, so none lies on a cycle |
| RangeCatalog.CatalogIsAcyclicExactly | cyber_range/controller/app.py:96-144 | an accepted catalog has no cycle exactly when some order of all its scenarios passes the campaign check |
| RangeCatalog.CatalogAloneAllowsCycles | cyber_range/controller/app.py:96-99 | for any two identifiers a catalog with a cycle that the catalog check lets through and no accepted campaign can contain |
| RangeController.AcceptedCatalogsLoad | cyber_range/controller/app.py:42-145 | what both checks accept is the catalog every other result assumes |
| RangeController.AcceptedCatalogsAreComplete | cyber_range/controller/app.py:42-153 | every accepted scenario and campaign stands under its identifier |
| RangeController.Controller.StartOne | cyber_range/controller/app.py:307-309 | activates one declared scenario |
| RangeController.Controller.Show | cyber_range/controller/app.py:298-304 | shows every record of both stores, scenarios without their secrets |
| RangeController.Controller.Start | cyber_range/controller/app.py:312-342 | starts a campaign afresh unless it is active |
| RangeController.Controller.AdvanceOne | cyber_range/controller/app.py:354-400 | completes the current scenario and activates the next, or finishes |
| RangeController.Controller.Reset | cyber_range/controller/app.py:403-414 | empties both stores and counts what it removed |
| RangeController.Controller.Save | cyber_range/controller/app.py:417-443 | a snapshot lists exactly the records of both stores |
| RangeController.Controller.RestoreOne | cyber_range/controller/app.py:462-536 | checks everything before it replaces both stores |
| RangeController.AdvancedInProgress | cyber_range/controller/app.py:364-392 | one advance completes exactly one more scenario |
| RangeController.ReachableCampaigns | cyber_range/controller/app.py:312-536 | in every state reached from sound snapshots the completed scenarios are the prefix before the index and hold all prerequisites of the active one |
| RangeController.ReachableSoundExactly | cyber_range/controller/app.py:312-536 | whatever the snapshots, every reachable state is sound exactly if each accepted one holds only campaign records that stand at an index of their campaign |
| RangeController.AdvancesComplete | cyber_range/controller/app.py:354-400 | through any operations without reset or restore each advance of a campaign in progress completes one scenario, until all are |
| RangeController.ExactlyAsManyAdvances | cyber_range/controller/app.py:312-400 | a started campaign is completed exactly when at least as many of the operations since advanced it as it has scenarios |
| RangeController.AdvanceActivates | cyber_range/controller/app.py:369-387 | after an advance the next scenario is active, alone if scenarios are reset between |
| RangeController.ReachableRecordsTellTrue | cyber_range/controller/app.py:224-256 | in every state reached from snapshots that tell true each record says what the catalog declares, with a declared variant exactly if blind |
| RangeController.ActivationTellsTrue | cyber_range/controller/app.py:224-256 | an activation says what the catalog declares, at its own time and with its own nonce |
| RangeController.AnyVariantIsChosen | cyber_range/controller/app.py:239-242 | each variant of a blind scenario can be the one chosen |
| RangeController.BlindVariantsStayHidden | cyber_range/controller/app.py:186-191 | what is shown of a blind scenario never tells its variant |
| RangeController.NothingElseIsHidden | cyber_range/controller/app.py:186-191 | nothing but that variant is withheld |
| RangeController.RepliesTellTheStore | cyber_range/controller/app.py:307-400 | replies return the record in the store, or say that it is not declared or not started |
| RangeController.AdvanceCompletesOnce | cyber_range/controller/app.py:364-368 | an advance of any record completes the current scenario, if it has a name, and none twice |
| RangeController.MovesAreDated | cyber_range/controller/app.py:321-400 | a start is dated anew, an advance keeps the start and is dated itself |
| RangeController.StartAndAdvanceAreLocal | cyber_range/controller/app.py:316-400 | an active campaign is returned unchanged, and other campaigns' records are untouched |
| RangeController.StandsExactly | cyber_range/controller/app.py:307-400 | after any operations a scenario is active exactly if one activated it and none since emptied the store, or it was active and none has |
| RangeController.CurrentStandsExactly | cyber_range/controller/app.py:312-400 | while others play, a running campaign's record stays, and its current scenario exactly if nobody emptied the store or somebody has activated it since |
| RangeController.OtherStartTakesScenario | cyber_range/controller/app.py:319-320 | starting another campaign, with reset or without, takes the current scenario from a running one unless the other begins with it |
| RangeController.RestoreUndoes | cyber_range/controller/app.py:417-536 | whatever earlier snapshots hold and whatever happens in between, restoring a save is accepted and reproduces both stores |
| RangeController.RestoreIsAllOrNothing | cyber_range/controller/app.py:481-521 | a refused snapshot changes nothing, an accepted one replaces both stores |
| RangeController.RestoresExactly | cyber_range/controller/app.py:462-516 | a snapshot is restored exactly if it is the range's own, of a known schema with its lists, and its records are declared, distinct and of a known status |
| RangeController.AcceptedSnapshotIsSoundExactly | cyber_range/controller/app.py:493-516 | an accepted snapshot from anywhere leaves sound stores exactly if each campaign record stands at an index of its campaign |
| RangeController.ReadIsDeclared | cyber_range/controller/app.py:481-491 | restored scenario records are declared, distinct, and under their own names |
| DiagnosticRules.DiagnosticRuleSet.Observe | backend/app/diagnostics/rules.py:11-53 | counts, opens and closes one resource as specified |
| DiagnosticRules.DiagnosticRuleSet.Current | backend/app/diagnostics/rules.py:55-63 | the last status, or unknown once it is no longer valid |
| DiagnosticRules.CurrentExactly | backend/app/diagnostics/rules.py:11-63 | on every history a resource's current status is what its last probe found, for forty-five seconds |
| DiagnosticRules.IncidentsCarryTheirProbe | backend/app/diagnostics/rules.py:34-52 | an incident is about the resource, time and result of the probe that raised it |
| DiagnosticRules.MachineMeetsSpecification | backend/app/diagnostics/rules.py:29-53 | open exactly when the latest three known failures in a row ended after the latest two known successes in a row |
| DiagnosticRules.EpisodesAlternate | backend/app/diagnostics/rules.py:34-52 | openings and recoveries of a resource take turns and name the same episode |
| DiagnosticWorker.Worker.AttemptOne | backend/app/diagnostics/worker.py:488-523 | probes one resource, journals its observation and, unless refused, the note of its incident |
| DiagnosticWorker.ObservationsNameTheirEpisode | backend/app/diagnostics/worker.py:489-500 | an observation belongs to the episode that is open after it or that it has closed, and to none otherwise |
| DiagnosticWorker.Worker.RunCycle | backend/app/diagnostics/worker.py:484-540 | one cycle over all resources, the save of the rules and the acknowledgements after it, or a death and the restart from the saved rules |
| DiagnosticWorker.TurnKeepsPairing | backend/app/diagnostics/worker.py:488-532 | one turn keeps row and notes paired exactly if nothing was announced or note and rules were kept or lost together |
| DiagnosticWorker.CycleKeepsPairing | backend/app/diagnostics/worker.py:484-532 | a cycle keeps every resource paired exactly if each announced incident is journalled if and only if the rules are saved |
| DiagnosticWorker.EpisodesStayPaired | backend/app/diagnostics/worker.py:472-540 | over every run with refusals, deaths and acknowledgements episodes open and recover in turn after every cycle exactly if every cycle does so |
| DiagnosticWorker.LostSaveReopens | backend/app/diagnostics/worker.py:509-532 | an opening noted but not saved is announced again under another episode |
| DiagnosticWorker.LostSaveHappens | backend/app/diagnostics/worker.py:509-532 | in every journal with room a death before the save has that effect |
| DiagnosticWorker.RefusedNoteRecovers | backend/app/diagnostics/worker.py:520-532 | an opening saved but not noted is followed by the recovery of an episode that was never announced |
| DiagnosticWorker.RefusedNoteHappens | backend/app/diagnostics/worker.py:520-532 | in every journal with room a refused note has that effect |
| DiagnosticJournal.DiagnosticSpool.Append | backend/app/diagnostics/journal.py:71-118 | stores, recognizes or refuses a record, and rolls back when the counter is rejected |
| DiagnosticJournal.DiagnosticSpool.MarkFull | backend/app/diagnostics/journal.py:120-158 | counts a refusal in the marker and, if accepted, in the table |
| DiagnosticJournal.DiagnosticSpool.ListPending | backend/app/diagnostics/journal.py:160-174 | over a valid journal the first unacknowledged records in the order in which they were appended |
| DiagnosticJournal.DiagnosticSpool.Ack | backend/app/diagnostics/journal.py:176-181 | acknowledges one record |
| DiagnosticJournal.DiagnosticSpool.Health | backend/app/diagnostics/journal.py:183-213 | reports marker, larger drop count, pending records and used bytes |
| DiagnosticJournal.BoundsAlwaysHold | backend/app/diagnostics/journal.py:71-118 | in every run, whatever the identifiers, bytes stay within the bound and the order of the numbers is that of the entries |
| DiagnosticJournal.NothingUnacknowledgedIsLost | backend/app/diagnostics/journal.py:71-118 | in every run the unacknowledged records are the stored and never acknowledged ones in append order |
| DiagnosticJournal.PendingAfterAnyRun | backend/app/diagnostics/journal.py:160-174 | pending is the oldest unacknowledged records in append order |
| DiagnosticJournal.PendingIsAppendOrder | backend/app/diagnostics/journal.py:92-109 | ordering by sequence is append order although numbers are reused |
| DiagnosticJournal.SequenceNumbersAreReused | backend/app/diagnostics/journal.py:80-96 | a number freed by collection is given out again |
| DiagnosticJournal.DroppedCountsRefusals | backend/app/diagnostics/journal.py:103-158 | over every run the reported drops are at most the refusals, and all of them exactly if no record was stored while the marker alone knew of one |
| DiagnosticJournal.CountIsLost | backend/app/diagnostics/journal.py:103-158 | a refusal that only the marker counted is forgotten with the next stored record |
| DiagnosticJournal.FullExactly | backend/app/diagnostics/journal.py:103-158 | over every run the journal is reported as full exactly if it has refused a record and stored none since |
| DiagnosticPublisher.DiagnosticStore.RecordIncidentEvidence | backend/app/diagnostics/incidents.py:27-76 | opens or extends the incident of the record's episode |
| DiagnosticPublisher.DiagnosticStore.CommitRecord | backend/app/diagnostics/worker.py:403-468 | one publishing transaction: evidence, and the projection unless it is as new |
| DiagnosticPublisher.Publish | backend/app/diagnostics/worker.py:401-469 | one cycle interrupted anywhere: what was committed and what was acknowledged |
| DiagnosticPublisher.CycleIsSteps | backend/app/diagnostics/worker.py:401-469 | after any run such a cycle over its fixed batch is a sequence of single publications, the last one possibly torn |
| DiagnosticPublisher.CyclesConverge | backend/app/diagnostics/worker.py:401-469 | through any arrivals and interrupted cycles the stored records are published once each, in order, and all of them once nothing is pending |
| DiagnosticPublisher.CommitTwice | backend/app/diagnostics/incidents.py:21-24 | publishing a record again right after publishing it changes nothing |
| DiagnosticPublisher.PublishingConverges | backend/app/diagnostics/worker.py:401-469 | crashes between commit and acknowledgement are invisible in the published state |
| DiagnosticPublisher.CountsAreExact | backend/app/diagnostics/incidents.py:64-69 | an incident counts its distinct records although it keeps only 256 identifiers |
| DiagnosticPublisher.PublishedCountsAreExact | backend/app/diagnostics/incidents.py:42-69 | the counts are exact after any crashes, once nothing is pending |
| DiagnosticPublisher.ProjectionsAreNewest | backend/app/diagnostics/worker.py:436-467 | each projection is the first newest record of its subject |
| DiagnosticPublisher.NoIncidentWithoutEpisode | backend/app/diagnostics/incidents.py:34-36 | a record without an episode opens no incident |
| DiagnosticPublisher.ProjectionsByKind | backend/app/diagnostics/worker.py:405-445 | a resource's projection is an observation of it and an episode's is a note of it, each exactly if there is such a record |
| DiagnosticPublisher.IncidentsEndExactly | backend/app/diagnostics/incidents.py:42-76 | an incident is about the resource and rule of its episode's first record, first seen then, and ends in the state of the last note, open without one, with the last recovery's time and the latest of all |
| DiagnosticPublisher.PublishedProjectionsAreNewest | backend/app/diagnostics/worker.py:401-469 | projections are newest after any crashes, once nothing is pending |
| DiagnosticPublisher.CyclesPublishExactly | backend/app/diagnostics/worker.py:401-469 | through any arrivals and interrupted cycles counts are exact, incidents end as their records say and projections are newest, once nothing is pending |
| DiagnosticService.RoundsAreCycles | backend/app/diagnostics/worker.py:484-540 | rounds of probing, saving and publishing are a run of the worker |
| DiagnosticService.OneJournal | backend/app/diagnostics/worker.py:484-540 | after any such rounds the worker's journal is the one the publisher's results are about |
| DiagnosticService.OpenIncidentsExactly | backend/app/diagnostics/incidents.py:42-76 | over rounds that keep up, once nothing is pending, an incident is published as open exactly if a saved row is open with its episode or an observation of it was stored and never a note |
| DiagnosticService.IncidentsAreAboutTheirRows | backend/app/diagnostics/incidents.py:48-58 | while a saved row is open, the incident of its episode is published, open, and about the resource of that row |
| DiagnosticService.IncidentsHaveOneResource | backend/app/diagnostics/incidents.py:48-58 | all stored records of an incident are about its resource |
| DiagnosticService.StoredFromTurn | backend/app/diagnostics/worker.py:489-519 | what a turn stores is about its own resource and rule, at its own time, and of the episode of its row |
| DiagnosticService.OrphanHappens | backend/app/diagnostics/worker.py:509-519 | a worker that dies between the observation and the note of an opening keeps up and leaves such an episode |
| DiagnosticService.OrphansStayOpen | backend/app/diagnostics/worker.py:472-540 | through every further run that keeps up such an episode is never noted, so its incident is published as open for good |
| Credentials.CredentialStore.ReadFile | backend/app/inference/chatgpt_credentials.py:102-155 | a record with all tokens and the required scope, or a failure |
| Credentials.ReadExactly | backend/app/inference/chatgpt_credentials.py:102-155 | a file is readable exactly if it is complete and has the required scope |
| Credentials.UnusableFileIsNeverUsed | backend/app/inference/chatgpt_credentials.py:102-155 | in every interleaving a file without a token or the scope gives nobody a token, is never submitted and never changed |
| Credentials.CredentialStore.RefreshFile | backend/app/inference/chatgpt_credentials.py:257-311 | what each response leaves in the file and gives the caller |
| Credentials.RefreshTells | backend/app/inference/chatgpt_credentials.py:157-311 | what each response tells the caller and does to the file |
| Credentials.Caller.Advance | backend/app/inference/chatgpt_credentials.py:244-255 | each resumption of a call performs exactly its next step |
| Credentials.ReplacedTokensStayOutExactly | backend/app/inference/chatgpt_credentials.py:157-306 | in every interleaving, whatever the server answers, no replaced token returns to the file exactly if no accepted response issues one again |
| Credentials.ReplacedTokensAreNeverSubmitted | backend/app/inference/chatgpt_credentials.py:244-306 | unless the server issues it again, a refresh token replaced by a completed refresh is never submitted again |
| Credentials.ReissuedTokenIsSubmitted | backend/app/inference/chatgpt_credentials.py:157-306 | a replaced token that the server issues again is submitted again when the new access token is stale |
| Credentials.OneRequestAtATime | backend/app/inference/chatgpt_credentials.py:249-255 | at most one call is past the lock, and it submits the file's own token |
| Credentials.QueuedCallsReuseTheToken | backend/app/inference/chatgpt_credentials.py:249-253 | while the token stays fresh every queued call gets it and nothing is submitted |
| Credentials.CompletedRefreshIsFresh | backend/app/inference/chatgpt_credentials.py:157-204 | a completed refresh leaves a readable credential, fresh if it lives longer than the skew |
| Credentials.TokenStaysExactly | backend/app/inference/chatgpt_credentials.py:257-306 | a request leaves its token in the file exactly when the process dies before the write or the response neither brings another one nor declares it unusable |
| Credentials.ResubmittedExactly | backend/app/inference/chatgpt_credentials.py:244-306 | the next call submits the same token again exactly when it stayed and what the file holds is stale |
| Credentials.UnwrittenRefreshResubmits | backend/app/inference/chatgpt_credentials.py:257-306 | a crash before the write and a response that lost the scope make the next call submit the old token again |
| Credentials.UnrotatedTokenResubmits | backend/app/inference/chatgpt_credentials.py:157-179 | a response without a refresh token, or with the submitted one, keeps it, and it is submitted again exactly once the new access token is stale |

## Left out

- HTTP, sockets, TLS, SQL text, Redis wire calls, SQLite page limits, file permissions and symbolic links.
- Metrics, audit events, evidence files and log lines, which no modelled decision reads.
- The embedding and the vector search: the ranked first row and its similarity are inputs, filtered by the columns the query compares.
- Intent classification, query normalization and the hashes of context, profile and authorization: they are parts of the key, taken as given.
- Interleavings inside one cache operation, and swallowed Redis errors that leave an old copy behind; the refinement is for atomic operations.
- Parsing a cached payload: stored payloads are taken to be valid.
- Cancellation inside one cache operation; a call cancelled between its steps leaves its lock to the lease.
- The economic services: their gate and settlement are accepted or refused from outside.
- JSON numbers that are not integers, white space between tokens, and escapes of surrogates.
- ResponseCache.SameKeyMeansSameIdentity: SHA-256 is taken to be injective, so the key is its own preimage and only what goes into it is stated.
- Replay.FileRefinesGuard: stated while writes work and for nonces that do not end in CR; Replay.FileIsItsLines is the general case.
- UTF-8 decoding of a stream cut inside a character.
- Case folding of names outside ASCII, and not-a-number costs, in the provider order.
- Incident notes without an episode, which the rules never produce; their projection would be looked up by resource.
- Python's recursion limit in the plan validator, which a dependency chain of about a thousand steps reaches.
- The reconnect delays, the abort signal and the refresh of the web client's own session.
- The fields of a scenario record that are copied from the manifest unread (family, difficulty, purple), and the hash by which it commits to its variant.
- Pagination, projections status, probes and the worker's timing.
