# Verified models of the gateway protocols

This project models the concurrent and algorithmic cores of the repository as Dafny state machines
and proves what they promise, over every input, every run or every reachable state. `dafny verify
dfyconfig.toml` checks all of it.

Each protocol comes in two layers. A specification gives the state as a value and every callback,
timer, remote answer or call as one step, so that any interleaving of the asynchronous code is a
sequence of steps; the theorems are about all such sequences. Beside it, where the source updates
fields in place, a class does the same with mutable fields and loops, and each method is proved
equal to its step. The modules named Outcomes, Effects, Retries, Causes and History say what a step
does and when it succeeds in terms of the calls and events of the run alone: their times, tokens and
results, and not the records that the steps keep.

| files | what they cover |
|---|---|
| `SessionStream`, `SessionStreamCursor`, `SessionStreamProgress`, `SessionStreamEnds`, `SessionStreamRetries`, `SessionStreamEffects`, `SessionStreamState` | one session stream of the channel gateway: durable cursor, bounded serial queue, backpressure, generations, retries, dead letters; no event is lost, an event is given up exactly when its tries are used up, handlings are bounded, and whatever the renders do the stream comes to rest with its cursor at the last event |
| `StreamEviction` | the cap on live streams |
| `DeliveryDispatcher`, `DispatchOutcomes`, `DispatcherState` | the bounded worker pool with per-destination lanes: exact counters, order, fairness, and what each delivery and each completion starts |
| `SentDeliveries`, `GatewayDeliveries`, `DeliveryKeys` | the sent cache and duplicate suppression: which served deliveries are taken in, and how far apart two sends of one delivery must be |
| `DeliverySubscriber` | the self-healing delivery subscription and its health flag |
| `Graphs`, `SankeyLayering` | link aggregation, cycle detection and longest-path columns |
| `Json`, `StableJson`, `StableJsonTies` | JSON text, the canonical printer, and exactly when it is canonical, for one value and for all |
| `ProofStore`, `ProofStoreRuns`, `ProofStoreOutcomes`, `ProofStoreState` | the lease-fenced command store: fencing, versions, projections, command life cycle, and exactly when each call succeeds |
| `OrderedMaps`, `StandaloneRepository`, `StandaloneRuns`, `StandaloneOutcomes`, `StandaloneSessions`, `StandaloneHistory`, `StandaloneRetention`, `StandaloneState` | the standalone repository: daemon leases, sessions and events, job claims, retention, and exactly when each call succeeds |
| `JobDrain`, `ReplyText`, `SerializedRuns` | the job runner's drain loop, reply assembly, per-session serialisation |
| `InterruptFence`, `InterruptCauses`, `ChannelPrompts` | the fail-closed interrupt fence around native prompts, and the queues that serialise channel prompts |
| `AuditPaging`, `AuditPagingOrders` | keyset pagination of audit events, with two comparisons of keys |
| `PercentEncoding`, `HashRoutes` | hash routes and the percent-encoding they rest on |
| `Wrappers`, `Sequences` | shared helpers |

Properties that turned out to need a condition are stated with it, and with a run or value that
shows why:

- the stream's own cursor falls exactly when `ensure` reports a higher cursor between a write's
  application and its answer (`CursorFallsIffOvertaken`), which takes a second writer or a failed
  write that arrives late (`SecondWriterCanLowerCursor`); the stored cursor is monotone in any case;
- the sankey links keep the rows' graph exactly when no two rows collide on the joined key, which
  labels without a NUL never do (`AggregationKeepsGraph`, `CollisionCanHideCycle`);
- `stableJson` is canonical exactly when `localeCompare` never calls two different keys equal
  (`CanonicalIffNoTies`), and a single payload has one text exactly when it has no such keys
  (`OneTextIffTieFree`), which is when retries of its command are accepted in every key order;
- a prompt that the adapter admits is safe from being posted under an interrupt exactly when, at the
  call, all interrupts of the session have succeeded and no other prompt of it can still come to
  interrupt (`CallIsSafeIffClear`). Overlapping prompts break it in two ways: the fence is looked at
  when a prompt is called and not when it is posted (`EarlyCallEscapesFence`), and a second fence
  replaces the first (`OverlapEscapesFence`). Serialised prompts meet the condition, and channel
  messages are serialised (`ChannelPromptsAreSerialised`); the adapter itself does not serialise,
  and the job runner's prompts do not go through the queue that channel messages use;
- a store of audit events pages exactly if and only if `localeCompare`, used by the sort, and `<`,
  used by the cursor test, order the keys of its matching events alike
  (`AuditPagingExactIffStringsAgree`); ids of mixed case at one time do not (`MixedCaseIdsSkip`);
- eviction fails to get below the cap exactly when there is a stream with the empty id and evicting
  everything ahead of it is not enough (`EvictUntilUnderCap`, `EmptyIdStaysOverCap`);
- the subscriber's health flag relies on closed connections delivering nothing more
  (`LateDeliveryMisleads`, `LateDeliveryRun`); their late errors and closes do no harm.

Assumptions about the surroundings, as steps or parameters of the model: the cloud answers a cursor
write with the stored cursor, the higher of the old one and the request, and may still apply a write
that failed at the gateway; a subscription replays the
log in order after the sequence it was opened with and calls back later, never from inside the call
that opens it; a callback delivered late carries its old generation; a queue key stands for one session; random ids and tokens never
repeat; times are integers.

## Model

| member | source | states |
|---|---|---|
| `SessionStream.NoLostEvent` | apps/channel-gateway/src/session-stream-manager.ts:191-373 | after every run of one stream, whatever SSE errors, overflows, transient or permanent failures, timers and late completions it contains, each log event at or below the stored cursor (and the stream's own) was rendered, dead-lettered, covered by a snapshot, or at or below a cursor the binding started with or another writer stored |
| `SessionStream.StepKeeps` | apps/channel-gateway/src/session-stream-manager.ts:191-373 | every callback and every outside event keeps: the cursor is safe, the queue of the current generation has no gap, the head task is entitled to its cursor write, and the stream is not wedged (exactly one of a live subscription and a pending retry, bounded queue, an overflow that will be lifted) |
| `SessionStream.RunKeeps` | apps/channel-gateway/src/session-stream-manager.ts:191-373 | the same invariant over whole runs |
| `SessionStreamRetries.GivenUpIffExhausted` | apps/channel-gateway/src/session-stream-manager.ts:299-338 | in every run an event becomes a dead letter exactly at a failure of its render, or of the cursor write behind its render, that is permanent or brings its failures since it last got through to max(1, maxRenderAttempts), and the write past it is then under way; any other such failure leaves the dead letters and both cursors alone, takes the event off the queue and, on an open stream, leaves a retry pending |
| `SessionStreamRetries.DeadLetterWasGivenUp` | apps/channel-gateway/src/session-stream-manager.ts:306-338 | every dead letter of a run has an earlier action that gave it up in that sense |
| `SessionStreamRetries.BooksAreExact` | apps/channel-gateway/src/session-stream-manager.ts:294-303 | the failures on the books of an event are the failures in the history since it last got through |
| `SessionStreamRetries.SnapshotMovesToHighest` | apps/channel-gateway/src/session-stream-manager.ts:340-354 | a fetched snapshot starts a write to the highest of the cursor, the two sequences of its event and the projection, or does nothing if that is not past the cursor |
| `SessionStreamRetries.PassedEventHasCause` | apps/channel-gateway/src/session-stream-manager.ts:191-373 | no lost event, told by the actions: every log event past the opening cursor and at or below the stored one has an earlier action that rendered it, gave it up, fetched a snapshot reaching it, or was another writer's cursor |
| `SessionStreamEffects.CutOffIsRetried` | apps/channel-gateway/src/session-stream-manager.ts:226-268 | every subscription error, failed fetch and failed write that is not behind a render drops the subscription, voids everything queued, leaves a retry pending on an open stream, and moves no cursor and handles nothing |
| `SessionStreamEffects.QueuedIffRoom` | apps/channel-gateway/src/session-stream-manager.ts:200-225 | a delivered event joins the back of the queue, with the generation that reports it, exactly when the queue has room and no delivery was refused since the stream last subscribed |
| `SessionStreamEffects.StartedIffCurrent` | apps/channel-gateway/src/session-stream-manager.ts:255-274 | the event whose turn it is is rendered exactly when nobody closed the stream, it came by the current subscription and it is past the cursor; a snapshot notice of the current subscription is fetched; everything else is dropped |
| `SessionStreamEffects.SubscribesIffDue` | apps/channel-gateway/src/session-stream-manager.ts:216-253 | exactly a retry that fires, and an overflow that drains with no retry pending, open a new subscription |
| `SessionStreamEffects.SubscribesBehindCursor` | apps/channel-gateway/src/session-stream-manager.ts:191-199 | a new subscription is opened by open streams only and delivers exactly the log events past the own cursor |
| `SessionStreamEffects.ClosedIffAsked` | apps/channel-gateway/src/session-stream-manager.ts:432-436 | a stream is closed exactly when it was asked to close at some time before |
| `SessionStreamEffects.ClosedStartsNothing` | apps/channel-gateway/src/session-stream-manager.ts:191-256 | a closed stream opens no subscription, schedules no retry and begins no render or fetch |
| `SessionStreamState.StreamState.Subscribe` | apps/channel-gateway/src/session-stream-manager.ts:191-199 | in place, equal to the specified transition: a (re)subscription voids older generations, lifts the overflow and starts behind the cursor; a closed stream ignores it |
| `SessionStreamState.StreamState.OnEvent` | apps/channel-gateway/src/session-stream-manager.ts:200-225 | in place, equal to the specified transition, and never leaving the stream wedged: drops while overflowing, detaches at the queue bound, otherwise queues with the subscription's generation |
| `SessionStreamState.StreamState.Finish` | apps/channel-gateway/src/session-stream-manager.ts:216-224 | in place, equal to the specified transition, and never leaving the stream wedged: the head leaves the queue; a drained overflow resubscribes unless a retry is pending |
| `SessionStreamState.StreamState.Reconnect` | apps/channel-gateway/src/session-stream-manager.ts:234-239 | in place, equal to the specified transition, and never leaving the stream wedged: voids the generation, drops the subscription and schedules a retry |
| `SessionStreamState.StreamState.ScheduleRetry` | apps/channel-gateway/src/session-stream-manager.ts:241-253 | in place, equal to the specified transition: at most one retry timer, none on a closed stream |
| `SessionStreamState.StreamState.OnTimer` | apps/channel-gateway/src/session-stream-manager.ts:248-251 | in place, equal to the specified transition, and never leaving the stream wedged: the retry timer clears itself and resubscribes |
| `SessionStreamState.StreamState.Begin` | apps/channel-gateway/src/session-stream-manager.ts:255-274 | in place, equal to the specified transition, and never leaving the stream wedged: closed or stale tasks and events at or below the cursor are dropped; snapshots are fetched; the rest is rendered |
| `SessionStreamState.StreamState.OnRenderFailed` | apps/channel-gateway/src/session-stream-manager.ts:299-321 | in place, equal to the specified transition, and never leaving the stream wedged: counts the failure and either reconnects or starts the write past the event, which `GivenUpIffExhausted` pins to the history |
| `SessionStreamState.StreamState.OnSnapshotFetched` | apps/channel-gateway/src/session-stream-manager.ts:340-354 | in place, equal to the specified transition, and never leaving the stream wedged: moves to the highest of cursor, announced, projected and event sequence, or does nothing |
| `SessionStreamState.StreamState.OnSnapshotFailed` | apps/channel-gateway/src/session-stream-manager.ts:261-268 | in place, equal to the specified transition, and never leaving the stream wedged: a failed hydration reconnects |
| `SessionStreamState.StreamState.OnSaved` | apps/channel-gateway/src/session-stream-manager.ts:294-298 | in place, equal to the specified transition, and never leaving the stream wedged: takes over the stored cursor and forgets the event's failures |
| `SessionStreamState.StreamState.OnSaveFailed` | apps/channel-gateway/src/session-stream-manager.ts:314-320 | in place, equal to the specified transition, and never leaving the stream wedged: a failed write after a render counts as a render failure; other failed writes reconnect |
| `SessionStreamState.StreamState.OnSseError` | apps/channel-gateway/src/session-stream-manager.ts:226-230 | in place, equal to the specified transition, and never leaving the stream wedged: an error of the subscription reconnects |
| `SessionStreamState.StreamState.Ensure` | apps/channel-gateway/src/session-stream-manager.ts:137-147 | in place, equal to the specified transition, and never leaving the stream wedged: an existing stream takes over a higher reported cursor |
| `DeliveryDispatcher.StepKeeps` | apps/channel-gateway/src/gateway-runtime.ts:202-258 | every enqueue and every completion keeps: a lane is in the ready line exactly once iff marked ready, never while running and never without work; `queued`, `active` and the pending keys are exact; both bounds hold; each lane's order is kept; no slot is idle while a lane waits |
| `DeliveryDispatcher.RunKeeps` | apps/channel-gateway/src/gateway-runtime.ts:176-258 | the same over every run, with histories that only grow |
| `DeliveryDispatcher.DispatchKeeps` | apps/channel-gateway/src/gateway-runtime.ts:208-233 | the lane at the front exists, is not running and has work, so neither `continue` of the loop is ever taken, and dispatching it keeps the invariant |
| `DeliveryDispatcher.PumpKeeps` | apps/channel-gateway/src/gateway-runtime.ts:208-233 | pumping keeps the invariant and stops only when no slot is free or no lane waits |
| `DeliveryDispatcher.LanesStayInOrder` | apps/channel-gateway/src/gateway-runtime.ts:202-233 | in every run a lane's accepted deliveries are its dispatched ones in order followed by its queue, with the running one last dispatched |
| `DeliveryDispatcher.LineIsFair` | apps/channel-gateway/src/gateway-runtime.ts:202-233 | a lane at position p of the ready line gets its slot after exactly p other dispatches, none of them its own, whatever arrives or settles meanwhile |
| `DeliveryDispatcher.FreeSlotMeansAllRunning` | apps/channel-gateway/src/gateway-runtime.ts:208-258 | a slot is free only when every lane left is already running |
| `DispatchOutcomes.OfferTakesInTheNew` | apps/channel-gateway/src/gateway-runtime.ts:236-259 | in every reachable pool a delivery that is neither held nor over the bound is taken in, and starts at once exactly when a slot is free and its lane idle; any other leaves the pool as it is |
| `DispatchOutcomes.SettleHandsOver` | apps/channel-gateway/src/gateway-runtime.ts:222-233 | a completion frees slot and key, sends a lane with work left to the back of the line, and starts the oldest delivery of the lane at the front |
| `DispatcherState.Dispatcher.MarkReady` | apps/channel-gateway/src/gateway-runtime.ts:202-206 | in place, equal to the specified transition: a lane joins the line once |
| `DispatcherState.Dispatcher.DispatchFront` | apps/channel-gateway/src/gateway-runtime.ts:210-221 | in place, equal to the specified transition: the front lane leaves the line and starts its oldest delivery |
| `DispatcherState.Dispatcher.Pump` | apps/channel-gateway/src/gateway-runtime.ts:208-233 | in place, equal to the specified transition: fills free slots until slots or waiting lanes run out |
| `DispatcherState.Dispatcher.Enqueue` | apps/channel-gateway/src/gateway-runtime.ts:236-259 | in place, equal to the specified transition: duplicate, shed or accepted, exactly by pending key and queue bound |
| `DispatcherState.Dispatcher.AdmitDelivery` | apps/channel-gateway/src/gateway-runtime.ts:250-256 | in place, equal to the specified transition: the delivery joins its lane, the counts and the pending keys |
| `DispatcherState.Dispatcher.ReleaseLane` | apps/channel-gateway/src/gateway-runtime.ts:222-228 | in place, equal to the specified transition: a settled lane is forgotten if empty and otherwise goes to the back of the line |
| `DispatcherState.Dispatcher.OnSettled` | apps/channel-gateway/src/gateway-runtime.ts:222-230 | in place, equal to the specified transition: a completion frees slot and key and pumps |
| `DispatcherState.Dispatcher.constructor` | apps/channel-gateway/src/gateway-runtime.ts:176-200 | at least one slot, a queue bound not below it, and an empty valid pool |
| `SentDeliveries.SentCache.RememberSent` | apps/channel-gateway/src/gateway-runtime.ts:302-311 | the cache becomes the old one without the key, the key appended, cut to its newest entries |
| `SentDeliveries.RememberKeeps` | apps/channel-gateway/src/gateway-runtime.ts:301-311 | the cache holds distinct keys, each in front of exactly what was sent after it, and every key outside it has at least a cache's worth of distinct keys sent after it |
| `SentDeliveries.SpacedByPosition` | apps/channel-gateway/src/gateway-runtime.ts:301-311 | the spacing invariant read by positions: between two sends of a key lie at least `gap` distinct other keys |
| `GatewayDeliveries.DuplicateSendsAreFarApart` | apps/channel-gateway/src/gateway-runtime.ts:236-243 | in every run of serves, sends and settlements, at least 2048 distinct other deliveries were sent successfully between two successful sends of the same delivery |
| `GatewayDeliveries.RunKeeps` | apps/channel-gateway/src/gateway-runtime.ts:301-376 | over every run the pool is valid, the cache is recent, sends are spaced, and a pending delivery that was sent before is in flight or far from its last send |
| `GatewayDeliveries.ServeTakesInTheNew` | apps/channel-gateway/src/gateway-runtime.ts:361-377 | a served delivery that was not sent lately, is not pending and finds room is taken in: accepted grows by exactly it, its key is pending, and it is in flight at once if a slot is free and its lane idle, else last in its lane; any other changes nothing |
| `GatewayDeliveries.RunTakesInTheNew` | apps/channel-gateway/src/gateway-runtime.ts:236-259 | over every run the accepted deliveries are exactly the served ones that were not remembered, pending or shed when they were served, in order |
| `GatewayDeliveries.RememberedIffSentLately` | apps/channel-gateway/src/gateway-runtime.ts:301-311 | with the cache as every run keeps it, a key is remembered exactly when it was sent and fewer than a cache's worth of distinct other keys were sent since |
| `GatewayDeliveries.GatewayRuntime.OnDelivery` | apps/channel-gateway/src/gateway-runtime.ts:361-377 | re-acks exactly a remembered delivery; any other that is not pending and finds room is appended to the accepted ones, nothing else is, and its key is then pending |
| `GatewayDeliveries.GatewayRuntime.OnSent` | apps/channel-gateway/src/gateway-runtime.ts:692-703 | a successful send is remembered before its ack |
| `GatewayDeliveries.GatewayRuntime.OnSettled` | apps/channel-gateway/src/gateway-runtime.ts:222-230 | the settled handler releases its lane in the runtime's state |
| `DeliveryKeys.IdentityKeyIsExact` | apps/channel-gateway/src/gateway-runtime.ts:157-161 | two deliveries share an identity key only if binding and delivery id are the same |
| `DeliverySubscriber.RunKeeps` | apps/channel-gateway/src/gateway-runtime.ts:77-138 | in every run: while running exactly one of an open subscription and a pending retry, the health flag equals "subscription open", and the only open connection is the current one |
| `DeliverySubscriber.StepKeeps` | apps/channel-gateway/src/gateway-runtime.ts:77-138 | each callback, timer and call keeps that invariant |
| `DeliverySubscriber.ClosedForGood` | apps/channel-gateway/src/gateway-runtime.ts:132-138 | after `close` no connection, no timer, and nothing is opened ever after |
| `DeliverySubscriber.DroppedStaysDropped` | apps/channel-gateway/src/gateway-runtime.ts:93-99 | a connection that was dropped or rotated is never open again |
| `DeliverySubscriber.CallbackHeals` | apps/channel-gateway/src/gateway-runtime.ts:77-138 | while running, told by the start and close calls: a loss reported by any connection leaves nothing open, a retry pending and the flag down; a retry and a quiet spell open one new connection; a spell that is not quiet changes nothing; a delivery keeps the connection and resets the attempts |
| `DeliverySubscriber.AttemptsCountLosses` | apps/channel-gateway/src/gateway-runtime.ts:80-106 | the number the retry delay grows with is the number of losses since the last delivery |
| `DeliverySubscriber.SubscriberState.OpenSubscription` | apps/channel-gateway/src/gateway-runtime.ts:77-91 | in place, equal to the specified transition: opens and reports healthy unless closed |
| `DeliverySubscriber.SubscriberState.OnErrorOrClose` | apps/channel-gateway/src/gateway-runtime.ts:86-99 | in place, equal to the specified transition: reports unhealthy, drops the connection, schedules one retry |
| `DeliverySubscriber.SubscriberState.OnRetryTimer` | apps/channel-gateway/src/gateway-runtime.ts:107-110 | in place, equal to the specified transition: clears the timer and reopens |
| `DeliverySubscriber.SubscriberState.OnWatchdogTimer` | apps/channel-gateway/src/gateway-runtime.ts:119-129 | in place, equal to the specified transition: rotates a quiet connection, never during a retry |
| `DeliverySubscriber.SubscriberState.ScheduleRetryTimer` | apps/channel-gateway/src/gateway-runtime.ts:101-112 | in place, equal to the specified transition: one pending retry at a time |
| `DeliverySubscriber.SubscriberState.StartOnce` | apps/channel-gateway/src/gateway-runtime.ts:115-131 | in place, equal to the specified transition: opens and arms the watchdog |
| `DeliverySubscriber.SubscriberState.Stop` | apps/channel-gateway/src/gateway-runtime.ts:132-138 | in place, equal to the specified transition: clears timers and connection |
| `SankeyLayering.AssignColumns` | mcps/charts/src/sankey.ts:112-144 | fails exactly when the links have a directed cycle, self-loops included; otherwise every node is processed once, in a topological order, and its column is the length of the longest path ending at it, so each link goes to a strictly later column |
| `SankeyLayering.LayerRows` | mcps/charts/src/sankey.ts:87-144 | the pipeline with its errors in order: no accepted row, more than 1000 nodes, a cycle; otherwise the columns above, over the rows' own graph when labels do not collide |
| `SankeyLayering.AggregateLinks` | mcps/charts/src/sankey.ts:87-101 | one link per joined label pair, carrying the sum of its accepted rows, for accepted rows only |
| `SankeyLayering.AggregationKeepsGraph` | mcps/charts/src/sankey.ts:94-101 | the links' graph equals the rows' graph exactly when no two rows with different ends share a key |
| `SankeyLayering.NulFreeRowsDoNotCollide` | mcps/charts/src/sankey.ts:94-94 | source labels without the separator never collide |
| `SankeyLayering.CollisionCanHideCycle` | mcps/charts/src/sankey.ts:94-101 | with the separator inside a label a cycle of the rows can vanish from the links |
| `SankeyLayering.CollectNodes` | mcps/charts/src/sankey.ts:108-108 | the distinct end points of the links |
| `SankeyLayering.IndexLinks` | mcps/charts/src/sankey.ts:112-120 | exact incoming counts and outgoing lists in link order |
| `SankeyLayering.ReadyNodes` | mcps/charts/src/sankey.ts:124-124 | the nodes that nothing enters |
| `SankeyLayering.RelaxTargets` | mcps/charts/src/sankey.ts:131-139 | raises each target once per link, lowers its open count, and releases it exactly when the count reaches zero |
| `SankeyLayering.CompleteLayering` | mcps/charts/src/sankey.ts:127-144 | when all nodes were processed there is no cycle and the columns are longest paths |
| `SankeyLayering.StuckLayering` | mcps/charts/src/sankey.ts:142-144 | when the queue ran dry early the nodes left contain a cycle |
| `StableJson.StableJsonIsCanonical` | scripts/support/runtime-portability-proof-store.ts:54-63 | for payloads without compare-equal keys, two texts are equal exactly when the values are equal up to key order at every depth |
| `StableJson.CanonicalIffNoTies` | scripts/support/runtime-portability-proof-store.ts:58-58 | the printer is canonical on all values exactly when different keys never compare equal |
| `StableJson.TieBreaksCanonicity` | scripts/support/runtime-portability-proof-store.ts:58-58 | two different keys that compare equal give equal objects with different texts |
| `StableJson.StableTextDeterminesMeaning` | scripts/support/runtime-portability-proof-store.ts:54-63 | equal texts always mean equal values, ties or not |
| `StableJson.StablePrintsCanon` | scripts/support/runtime-portability-proof-store.ts:54-63 | the text is the plain print of the value with every object sorted |
| `StableJson.CanonKeepsMeaning` | scripts/support/runtime-portability-proof-store.ts:57-58 | sorting the entries at every depth keeps the value |
| `Json.PrintIsInjective` | scripts/support/runtime-portability-proof-store.ts:62-62 | well-formed values with equal JSON texts are equal |
| `Json.PrintIsPrefixFree` | scripts/support/runtime-portability-proof-store.ts:59-59 | a value's text is never followed ambiguously: text and remainder are determined together |
| `ProofStore.TokenDeterminesAttempt` | scripts/support/runtime-portability-proof-store.ts:103-103 | a session's tokens with different attempts or workers differ, because the decimal attempt is readable back |
| `ProofStore.FindIdIsFirst` | scripts/support/runtime-portability-proof-store.ts:234-238 | the command found is the first with that id, and none only if there is none |
| `ProofStore.FindEligibleIsFirst` | scripts/support/runtime-portability-proof-store.ts:187-190 | the command found is the first pending one that is open to this lease token |
| `ProofStoreRuns.ApplyKeeps` | scripts/support/runtime-portability-proof-store.ts:95-221 | every operation keeps: the lease carries the token of the last attempt and the session's version, `createdSeq` is position plus one, ids are unique, each command's fields fit its status; and it only moves the session forward |
| `ProofStoreRuns.RunKeeps` | scripts/support/runtime-portability-proof-store.ts:95-221 | the same over every run of a session |
| `ProofStoreRuns.RunEvolves` | scripts/support/runtime-portability-proof-store.ts:95-221 | between any two moments of a run: counters do not decrease, no command disappears, ids and contents never change, a running command stays with its worker, a settled one is final |
| `ProofStoreOutcomes.ClaimGrantedIffRunOut` | scripts/support/runtime-portability-proof-store.ts:95-119 | in every run a claim is granted exactly when there was no grant before it or the `now + ttl` of the latest grant, or of its latest successful renewal, is at most the claim's own time; granted, the lease is the claimer's until its own `now + ttl`; held, nothing changes |
| `ProofStoreOutcomes.StaleIffNotLatest` | scripts/support/runtime-portability-proof-store.ts:240-244 | a guarded call is refused as stale exactly when its token is not that of the latest grant |
| `ProofStoreOutcomes.RenewsIffLatest` | scripts/support/runtime-portability-proof-store.ts:111-119 | exactly the latest grant renews, until the `now + ttl` it asks for |
| `ProofStoreOutcomes.CheckpointsIffLatest` | scripts/support/runtime-portability-proof-store.ts:121-133 | a checkpoint succeeds exactly from the latest grant with a version equal to the number of successful checkpoints, and takes it one further |
| `ProofStoreOutcomes.WritesIffHigher` | scripts/support/runtime-portability-proof-store.ts:135-146 | a projection is accepted exactly from the latest grant, at the current version, with a sequence above the last accepted one |
| `ProofStoreOutcomes.KnownIffQueued` | scripts/support/runtime-portability-proof-store.ts:148-182 | the queue holds exactly the ids that were enqueued |
| `ProofStoreOutcomes.NewIdIsQueued` | scripts/support/runtime-portability-proof-store.ts:165-182 | an id nobody used before is queued last, pending, with the content given |
| `ProofStoreOutcomes.HandsOutFirstWaiting` | scripts/support/runtime-portability-proof-store.ts:184-195 | the latest grant is handed the first command that was handed to nobody and is open to it, and nothing exactly when there is none |
| `ProofStoreOutcomes.SettlesIffInHand` | scripts/support/runtime-portability-proof-store.ts:197-221 | an ack or fail goes through exactly for a command handed to a worker of that name and not settled since; an acked command is acked again without change |
| `ProofStoreOutcomes.UnknownIsRefused` | scripts/support/runtime-portability-proof-store.ts:234-238 | an id that was never queued cannot be settled |
| `ProofStoreRuns.TokensAreDistinct` | scripts/support/runtime-portability-proof-store.ts:95-109 | the tokens of all grants of a session are pairwise distinct |
| `ProofStoreRuns.CurrentIffLatestGrant` | scripts/support/runtime-portability-proof-store.ts:240-244 | at every moment a lease is accepted exactly when its token is the one of the latest grant, expired or not |
| `ProofStoreRuns.ReplacedLeaseIsFenced` | scripts/support/runtime-portability-proof-store.ts:240-244 | once a newer lease is granted, no renew, checkpoint, projection write, claim, ack or fail with an earlier one succeeds or changes anything ever again |
| `ProofStoreRuns.VersionCountsCheckpoints` | scripts/support/runtime-portability-proof-store.ts:121-133 | the version is the number of checkpoints that succeeded |
| `ProofStoreRuns.CheckpointsNeverShareAVersion` | scripts/support/runtime-portability-proof-store.ts:124-127 | successful checkpoints start from strictly increasing versions, each from the number of those before it |
| `ProofStoreRuns.ProjectionsIncrease` | scripts/support/runtime-portability-proof-store.ts:135-146 | accepted projection sequences strictly increase |
| `ProofStoreRuns.ClaimTakesOldest` | scripts/support/runtime-portability-proof-store.ts:184-195 | a claim takes the eligible command with the lowest `createdSeq`, and comes back empty exactly when none is eligible |
| `ProofStoreRuns.ClaimedAtMostOnce` | scripts/support/runtime-portability-proof-store.ts:184-195 | no command is ever handed out twice |
| `ProofStoreRuns.StartedWasClaimed` | scripts/support/runtime-portability-proof-store.ts:192-193 | a command that left pending was claimed, under the worker name it carries |
| `ProofStoreRuns.AckedByItsClaimer` | scripts/support/runtime-portability-proof-store.ts:197-209 | an acked command was first claimed and then acked under the same worker name |
| `ProofStoreRuns.OthersCannotSettle` | scripts/support/runtime-portability-proof-store.ts:202-220 | a running command is settled by nobody but its worker name, so it stays running while only others act |
| `ProofStoreRuns.StatusStep` | scripts/support/runtime-portability-proof-store.ts:148-221 | one operation moves one command at most: it appears pending, is claimed, or is settled by its claimer |
| `ProofStoreRuns.ReuseAcceptedIffSameContent` | scripts/support/runtime-portability-proof-store.ts:151-164 | a reused id is accepted exactly when the content is the same up to key order, and changes nothing either way |
| `ProofStoreRuns.EnqueuedStays` | scripts/support/runtime-portability-proof-store.ts:165-181 | an accepted command keeps place, id and content for the rest of the run |
| `ProofStoreState.SessionsAreIndependent` | scripts/support/runtime-portability-proof-store.ts:77-93 | after every sequence of calls a session's record is the result of just the calls addressed to it |
| `ProofStoreState.Store.EnsureSession` | scripts/support/runtime-portability-proof-store.ts:79-93 | in place, equal to the specified call, with every refusal: creates the record once |
| `ProofStoreState.Store.ClaimSession` | scripts/support/runtime-portability-proof-store.ts:95-109 | in place, equal to the specified call, with every refusal; `ClaimGrantedIffRunOut` pins when it is granted |
| `ProofStoreState.Store.RenewLease` | scripts/support/runtime-portability-proof-store.ts:111-119 | in place, equal to the specified call, with every refusal: extends the current lease |
| `ProofStoreState.Store.TakeCheckpoint` | scripts/support/runtime-portability-proof-store.ts:121-133 | in place, equal to the specified call, with every refusal: advances session and lease from the expected version |
| `ProofStoreState.Store.WriteProjectionSeq` | scripts/support/runtime-portability-proof-store.ts:135-146 | in place, equal to the specified call, with every refusal: accepts only a higher sequence from the expected version |
| `ProofStoreState.Store.EnqueueCommand` | scripts/support/runtime-portability-proof-store.ts:148-182 | in place, equal to the specified call, with every refusal: queues, returns the existing command, or refuses a reused id |
| `ProofStoreState.Store.ClaimNextCommand` | scripts/support/runtime-portability-proof-store.ts:184-195 | in place, equal to the specified call, with every refusal: hands out the first eligible command |
| `ProofStoreState.Store.AckCommand` | scripts/support/runtime-portability-proof-store.ts:197-209 | in place, equal to the specified call, with every refusal: acks the claimer's running command, idempotently |
| `ProofStoreState.Store.FailCommand` | scripts/support/runtime-portability-proof-store.ts:211-221 | in place, equal to the specified call, with every refusal: fails the claimer's running command |
| `ProofStoreState.Store.FindCommand` | scripts/support/runtime-portability-proof-store.ts:234-238 | the loop finds the first command with the id |
| `ProofStoreState.Store.FindClaimable` | scripts/support/runtime-portability-proof-store.ts:187-190 | the loop finds the first eligible command |
| `StandaloneRepository.CandidateIsEarliest` | apps/standalone-gateway/src/repository.ts:215-219 | a claim takes the claimable job that became available earliest, the one queued first among equals, and none only if none is claimable |
| `StandaloneOutcomes.GrantedIffNotTaken` | apps/standalone-gateway/src/repository.ts:77-90 | in every run a lease is granted exactly unless another owner's grant is in force and the `now + ttl` of that grant or of its latest renewal is still to come; granted, it lasts until its own `now + ttl`; refused, nothing changes |
| `StandaloneOutcomes.LeaseChangesHandsIffRunOut` | apps/standalone-gateway/src/repository.ts:77-110 | a different owner is granted exactly when the latest grant was released or its `now + ttl`, or that of its latest successful renewal, is at most the asking time |
| `StandaloneOutcomes.GuardIsExact` | apps/standalone-gateway/src/repository.ts:207-214 | a lease reference passes the guard of claims and prunes exactly if it is that of the grant in force, before the end of its term |
| `StandaloneOutcomes.RenewsIffHolder` | apps/standalone-gateway/src/repository.ts:92-103 | exactly the holder renews, run out or not, for the time it asks |
| `StandaloneOutcomes.ReleasesIffHolder` | apps/standalone-gateway/src/repository.ts:105-110 | exactly the holder releases |
| `StandaloneOutcomes.PrunesIffWithinTerm` | apps/standalone-gateway/src/repository.ts:330-339 | a prune goes through exactly for the holder before its term ends |
| `StandaloneOutcomes.HandsOutIffDue` | apps/standalone-gateway/src/repository.ts:203-231 | a claim hands out a job exactly when its lease, if given, passes the guard and some job is due: queued for a time that has come, and never claimed, or not finished since a latest claim whose `now + ttl` is at most the claim's time; else nothing changes |
| `StandaloneOutcomes.HandsOutFirstDue` | apps/standalone-gateway/src/repository.ts:215-231 | the job handed out is due and was available first among the due ones, or queued first among equals, and is claimed by the caller until its own `now + ttl` |
| `StandaloneOutcomes.RunKeepsQueueOrder` | apps/standalone-gateway/src/repository.ts:182-201 | jobs stay in the order in which they were queued |
| `StandaloneOutcomes.JobIsAsQueued` | apps/standalone-gateway/src/repository.ts:182-201 | kind, session and available time of a job are those it was queued with |
| `StandaloneOutcomes.ClaimedUntilFinished` | apps/standalone-gateway/src/repository.ts:216-246 | a job is claimed from its claim until it is finished |
| `StandaloneOutcomes.FinishesIffLatestClaim` | apps/standalone-gateway/src/repository.ts:233-246 | a job is finished exactly under the token of its latest claim, with the result and time given; unknown jobs and older tokens are errors that change nothing |
| `StandaloneRuns.LeaseIsLatestGrant` | apps/standalone-gateway/src/repository.ts:77-110 | the lease on record carries owner and token of the latest grant |
| `StandaloneRuns.ReplacedLeaseIsFenced` | apps/standalone-gateway/src/repository.ts:207-214 | once a new token is issued, no renew, release, lease-guarded claim or prune under an older one succeeds or changes anything |
| `StandaloneRuns.RunKeepsJobsSound` | apps/standalone-gateway/src/repository.ts:182-246 | over every run a job's token, expiry and attempts fit its status, and no job is ever in the status running |
| `StandaloneRuns.OlderClaimCannotFinish` | apps/standalone-gateway/src/repository.ts:233-246 | after a job is reclaimed, the older claim token can no longer finish it |
| `StandaloneRuns.AttemptsCountClaims` | apps/standalone-gateway/src/repository.ts:220-228 | `attemptCount` is the number of times the job was handed out |
| `StandaloneRuns.ReclaimedOnlyAfterExpiry` | apps/standalone-gateway/src/repository.ts:215-218 | a job is handed out again only when the previous claim has run out |
| `StandaloneRuns.TokenIsLatestClaim` | apps/standalone-gateway/src/repository.ts:220-236 | the claim token on record is the one of the latest claim |
| `StandaloneRuns.TerminalStaysTerminal` | apps/standalone-gateway/src/repository.ts:233-246 | a terminal job stays terminal while it is on record, though its holder may change which terminal status |
| `StandaloneRuns.OnlyPruneRemovesJobs` | apps/standalone-gateway/src/repository.ts:353-362 | a job leaves the record only by a prune, terminal and older than the cutoff |
| `StandaloneSessions.RunKeepsSessionsSound` | apps/standalone-gateway/src/repository.ts:112-180 | over every run there is one session per address, and each session's log is numbered 1, 2, ... up to its last sequence |
| `StandaloneSessions.SessionOnlyMovesForward` | apps/standalone-gateway/src/repository.ts:153-180 | while a session is on record its address is fixed, its runtime id is written once and its log only grows |
| `StandaloneSessions.SessionOfOpenJobStays` | apps/standalone-gateway/src/repository.ts:342-352 | a session disappears only by a prune, and never while a job of it is not terminal |
| `StandaloneSessions.FindAddressIsExact` | apps/standalone-gateway/src/repository.ts:115-120 | the session found has the address, and none is found only if none has it |
| `StandaloneHistory.FindsOrCreates` | apps/standalone-gateway/src/repository.ts:112-146 | an address finds its one session and touches it, or gets a new idle session with its first event |
| `StandaloneHistory.AppendsNext` | apps/standalone-gateway/src/repository.ts:165-180 | an event is appended under the next number, to a session on record only |
| `StandaloneHistory.SessionIsAsTouched` | apps/standalone-gateway/src/repository.ts:153-163 | a session carries the time of the last operation that touched it, the last status given and the first runtime id given |
| `StandaloneRetention.PruneKeepsRecentAudits` | apps/standalone-gateway/src/repository.ts:363-376 | as a multiset the audits lose exactly the old ones and gain the prune's own record |
| `StandaloneRetention.PruneCountsMatch` | apps/standalone-gateway/src/repository.ts:370-377 | the returned counts are the numbers of sessions, jobs and audits that went |
| `StandaloneRetention.PruneIsIdempotent` | apps/standalone-gateway/src/repository.ts:323-378 | a second prune at the same instant deletes nothing and only records itself |
| `StandaloneHistory.PruneRemovesStaleSessions` | apps/standalone-gateway/src/repository.ts:341-352 | a prune that goes through removes, with its log, exactly each session untouched for max(1, sessionDays) times 86400000 ms, idle, failed or completed, and without a job queued for it and not finished; the others stay as they are |
| `StandaloneHistory.PruneRemovesFinishedJobs` | apps/standalone-gateway/src/repository.ts:353-362 | it removes exactly the jobs whose last finish is longer ago than max(1, jobDays) days |
| `StandaloneHistory.TerminalIffFinished` | apps/standalone-gateway/src/repository.ts:233-246 | a job is terminal exactly when it was finished |
| `StandaloneState.InMemoryRepository.AcquireDaemonLease` | apps/standalone-gateway/src/repository.ts:77-90 | in place, equal to the specified operation; `GrantedIffNotTaken` pins when it is granted and how long it lasts |
| `StandaloneState.InMemoryRepository.RenewDaemonLease` | apps/standalone-gateway/src/repository.ts:92-103 | in place, equal to the specified operation: extends a lease held under owner and token |
| `StandaloneState.InMemoryRepository.ReleaseDaemonLease` | apps/standalone-gateway/src/repository.ts:105-110 | in place, equal to the specified operation: forgets a lease held under owner and token |
| `StandaloneState.InMemoryRepository.FindOrCreateSessionFor` | apps/standalone-gateway/src/repository.ts:112-146 | in place, equal to the specified operation: touches the address's session or creates one with its first event |
| `StandaloneState.InMemoryRepository.UpdateSessionRuntime` | apps/standalone-gateway/src/repository.ts:153-163 | in place, equal to the specified operation: sets the runtime id once and the status if given |
| `StandaloneState.InMemoryRepository.AppendSessionEvent` | apps/standalone-gateway/src/repository.ts:165-180 | in place, equal to the specified operation: appends the next number |
| `StandaloneState.InMemoryRepository.Enqueue` | apps/standalone-gateway/src/repository.ts:182-201 | in place, equal to the specified operation: a pending job under a new id |
| `StandaloneState.InMemoryRepository.ClaimNextJob` | apps/standalone-gateway/src/repository.ts:203-231 | in place, equal to the specified operation: guarded by the lease, takes the candidate under a new token |
| `StandaloneState.InMemoryRepository.Finish` | apps/standalone-gateway/src/repository.ts:233-246 | in place, equal to the specified operation: only under the current claim token |
| `StandaloneState.InMemoryRepository.PruneSession` | apps/standalone-gateway/src/repository.ts:343-351 | in place, equal to the specified operation: deletes a session with its events exactly if it is old, idle, failed or completed, and without open jobs |
| `StandaloneState.InMemoryRepository.PruneSessions` | apps/standalone-gateway/src/repository.ts:341-352 | in place, equal to the specified operation: the loop deletes exactly the old sessions and counts them |
| `StandaloneState.InMemoryRepository.PruneJobs` | apps/standalone-gateway/src/repository.ts:353-362 | in place, equal to the specified operation: the loop deletes exactly the old terminal jobs and counts them |
| `StandaloneState.InMemoryRepository.PruneAudits` | apps/standalone-gateway/src/repository.ts:363-369 | in place, equal to the specified operation: the backward splice removes exactly the old audits, in place and in order |
| `StandaloneState.InMemoryRepository.PruneRetention` | apps/standalone-gateway/src/repository.ts:323-378 | in place, equal to the specified operation: guarded by the lease, prunes all three and records itself |
| `StandaloneState.InMemoryRepository.HasActiveJobFor` | apps/standalone-gateway/src/repository.ts:386-388 | in place, equal to the specified operation: whether a job of the session is not terminal |
| `JobDrain.RunDueJobs` | apps/standalone-gateway/src/runtime.ts:269-307 | terminates; round i handles one job, a different one each round, the one then available first among those due; it ends completed exactly if it is a prompt and round i succeeds, dead exactly for a prompt failing on its third or later attempt, failed otherwise, at the round's finish time with one more attempt; other jobs stay; the count is the number of rounds; stops only when inactive, without the lease, or with no job claimable |
| `JobDrain.RunRound` | apps/standalone-gateway/src/runtime.ts:274-304 | a round runs exactly when the lease, if given, is held and some job is claimable; it takes the first due and ends it by the round's outcome; otherwise nothing changes |
| `JobDrain.ExecuteClaimed` | apps/standalone-gateway/src/runtime.ts:279-304 | the claimed job ends completed exactly if it is a prompt that succeeds, dead exactly if it is a prompt that fails with three or more attempts, failed otherwise, at the finish time; other jobs stay |
| `JobDrain.EndingClosesOne` | apps/standalone-gateway/src/runtime.ts:274-304 | a job that a round ends was open and is terminal, so the loop's measure drops by one |
| `JobDrain.DrainStep` | apps/standalone-gateway/src/runtime.ts:272-306 | one more round extends the account of the rounds before it: none of their jobs changes, and the next job was first due among the jobs they left |
| `ReplyText.CoalesceAssistantText` | apps/standalone-gateway/src/runtime.ts:376-394 | the loop computes the merge of the parts |
| `ReplyText.NoTextIsLost` | apps/standalone-gateway/src/runtime.ts:376-394 | every part is contained in the merged reply |
| `ReplyText.SnapshotsCollapse` | apps/standalone-gateway/src/runtime.ts:385-389 | streaming snapshots that extend each other collapse to the last |
| `ReplyText.RepeatsAddNothing` | apps/standalone-gateway/src/runtime.ts:390-390 | a text that is already there, or comes twice, adds nothing |
| `ReplyText.UnrelatedTextsAreSeparated` | apps/standalone-gateway/src/runtime.ts:391-391 | a text that neither occurs in the reply nor extends it follows it after one blank line |
| `ReplyText.HardSplit` | apps/standalone-gateway/src/runtime.ts:368-373 | the chunks join to the text, none exceeds the limit, all but the last are full, none is empty unless the text is, and there is at least one |
| `SerializedRuns.OneAtATimeInOrder` | apps/standalone-gateway/src/runtime.ts:40-49 | in every run at most one action per key is under way, and they go in submission order |
| `SerializedRuns.FirstUnsettledCanMove` | apps/standalone-gateway/src/runtime.ts:42-42 | the first unsettled action of a key can always begin, so the chain never jams |
| `SerializedRuns.RunKeeps` | apps/standalone-gateway/src/runtime.ts:40-49 | the tail is the key's latest run, a forgotten key has no unsettled run, and each run waits for the one before it |
| `SerializedRuns.RunsAreSubmissions` | apps/standalone-gateway/src/runtime.ts:40-44 | the runs are exactly the submissions, in order |
| `SerializedRuns.PhaseMovesByOwnAction` | apps/standalone-gateway/src/runtime.ts:40-44 | a run begins exactly when everything submitted before it under its key has settled, and only its own actions move it |
| `SerializedRuns.LastTidyForgets` | apps/standalone-gateway/src/runtime.ts:45-47 | nothing is kept for a key once its last run has settled and tidied up |
| `SerializedRuns.SessionQueues.RunSerialized` | apps/standalone-gateway/src/runtime.ts:40-44 | chains behind the tail and becomes the tail |
| `SerializedRuns.SessionQueues.OnFinally` | apps/standalone-gateway/src/runtime.ts:45-47 | forgets the key only if no later run took its place |
| `InterruptFence.InterruptsOncePerLostPrompt` | apps/standalone-gateway/src/opencode.ts:226-249 | in every run a prompt issues at most one interrupt, none before its POST, and exactly one once it is done if it posted and no terminal event was observed |
| `InterruptFence.AdmittedIffLatestSucceeded` | apps/standalone-gateway/src/opencode.ts:114-116 | in every run a prompt is admitted exactly when the session's latest fenced interrupt, if any, has succeeded |
| `InterruptCauses.InterruptsIffLost` | apps/standalone-gateway/src/opencode.ts:226-250 | in every run an action interrupts a prompt exactly when it is the deadline of a posted prompt whose race is still open, or the first catch of a prompt whose race was rejected before any terminal event was seen; so one that errors after its terminal event, before its POST or after its deadline issues none |
| `InterruptCauses.RunTells` | apps/standalone-gateway/src/opencode.ts:117-257 | the callbacks that have come tell where a prompt stands and what its flags are |
| `InterruptFence.RunKeepsFence` | apps/standalone-gateway/src/opencode.ts:438-465 | the fence of a session is its latest interrupt until that one has succeeded |
| `InterruptFence.StepKeepsSound` | apps/standalone-gateway/src/opencode.ts:117-257 | each step keeps what a prompt's flags say about the interrupts it issued |
| `InterruptFence.PromptAdapter.BeginPrompt` | apps/standalone-gateway/src/opencode.ts:113-122 | in place, equal to the specified step: refused while the session is fenced |
| `InterruptFence.PromptAdapter.InterruptWithFence` | apps/standalone-gateway/src/opencode.ts:444-457 | in place, equal to the specified step: the interrupt becomes the session's fence |
| `InterruptFence.PromptAdapter.OnDeadline` | apps/standalone-gateway/src/opencode.ts:226-235 | in place, equal to the specified step: the deadline flags and interrupts |
| `InterruptFence.PromptAdapter.OnError` | apps/standalone-gateway/src/opencode.ts:236-250 | in place, equal to the specified step: interrupts only a posted prompt without terminal event and without an earlier interrupt |
| `InterruptFence.PromptAdapter.OnInterruptSettled` | apps/standalone-gateway/src/opencode.ts:458-462 | in place, equal to the specified step: lifts the fence only for a success that is still the fence |
| `AuditPaging.SortIsExact` | packages/cloud-server/src/audit-query.ts:24-27 | the sort holds the same events, strictly descending |
| `AuditPaging.NormalizeLimit` | packages/cloud-server/src/audit-query.ts:12-15 | a whole limit from 1 to 500: the floor within the range, clamped outside, 100 when not a finite number |
| `HashRoutes.RouteRoundTrip` | packages/app/src/browser-url-routing.ts:28-55 | parsing the printed route gives it back exactly for chats with a non-empty session and other views without one, the gallery only in dev mode |
| `HashRoutes.AcceptedHashIsStable` | packages/app/src/browser-url-routing.ts:28-55 | every hash that leads somewhere leads to the same place after being printed again |
| `HashRoutes.HashDeterminesRoute` | packages/app/src/browser-url-routing.ts:52-55 | different routable routes have different hashes |
| `HashRoutes.ParsedIsRoutable` | packages/app/src/browser-url-routing.ts:28-50 | a hash is refused or leads to a routable route |
| `HashRoutes.AcceptsExactly` | packages/app/src/browser-url-routing.ts:28-50 | exactly which hashes lead where: the empty hash, `#`, `/` and `#/` home; any view but chat by its name alone, the gallery in dev mode only; a chat by one segment without slashes that decodes to a non-empty id; nothing else leads anywhere |
| `HashRoutes.SplitIsExact` | packages/app/src/browser-url-routing.ts:33-33 | the segments are the slash-free pieces that join back to the path |
| `HashRoutes.ParsePlainView` | packages/app/src/browser-url-routing.ts:45-49 | a view's own hash parses to it, except chat alone and the gallery outside dev mode |
| `HashRoutes.ParseChat` | packages/app/src/browser-url-routing.ts:35-44 | a chat hash parses to its session for every non-empty id |
| `HashRoutes.NormalizeFindsView` | packages/app/src/app-types.ts:36-40 | every view's name is recognised as that view |
| `PercentEncoding.EncodeRoundTrip` | packages/app/src/browser-url-routing.ts:39-53 | decoding undoes encoding, for every string |
| `PercentEncoding.EncodedHasNoSeparator` | packages/app/src/browser-url-routing.ts:53-53 | an encoded component contains no slash or hash, and is empty only for the empty string |
| `PercentEncoding.PlainIffUnreserved` | packages/app/src/browser-url-routing.ts:53-53 | encoding leaves a component as it is exactly when all its characters are unreserved |
| `PercentEncoding.EncodedCharIsExact` | packages/app/src/browser-url-routing.ts:53-53 | an unreserved character stands for itself, any other is spelled as upper-case triplets of its UTF-8 bytes |
| `PercentEncoding.Utf8RoundTrip` | packages/app/src/browser-url-routing.ts:39-53 | the bytes of a character announce their length and read back as that character |
| `SessionStreamCursor.StoredNeverDecreases` | apps/channel-gateway/src/session-stream-manager.ts:361-373 | the durable cursor never decreases, whoever writes it |
| `SessionStreamCursor.FallsOnlyByAnswer` | apps/channel-gateway/src/session-stream-manager.ts:288-298 | one step lowers the stream's own cursor exactly when it answers a cursor write with a lower cursor |
| `SessionStreamCursor.CursorFallsIffOvertaken` | apps/channel-gateway/src/session-stream-manager.ts:288-298 | in every run the own cursor falls exactly when a write is answered and, between its application and its answer, `ensure` reported a cursor above the one it was answered with |
| `SessionStreamCursor.CursorNeverDecreases` | apps/channel-gateway/src/session-stream-manager.ts:288-298 | so with one writer, and no failed write arriving late, the own cursor never decreases |
| `SessionStreamCursor.SecondWriterCanLowerCursor` | apps/channel-gateway/src/session-stream-manager.ts:137-147 | with a second writer it can: a reachable state where the answer of a write in flight lowers the cursor that `ensure` had raised |
| `SessionStreamProgress.HandlingsAreBounded` | apps/channel-gateway/src/session-stream-manager.ts:299-338 | in every run an event is handled at most max(1, maxRenderAttempts) times, plus once for each time the write behind its dead letter failed, however often the stream reconnects and the log grows; never if it is at or below the opening cursor; after the last time the cursor is past it or being moved past it |
| `SessionStreamProgress.AllHandlingsAreBounded` | apps/channel-gateway/src/session-stream-manager.ts:299-338 | in every run all handlings together, less the dead-letter writes lost, are at most attempts times events of the final log |
| `SessionStreamEnds.OwnRunsEndCaughtUp` | apps/channel-gateway/src/session-stream-manager.ts:191-338 | from every state a stream can be in, whatever faults came before: a run of its own steps, in any order and with any outcome of renders and snapshot fetches, is no longer than a measure of its start allows, and when it can go no further the stored cursor is at or past every event of the log |
| `SessionStreamEnds.OwnStepSinks` | apps/channel-gateway/src/session-stream-manager.ts:191-338 | each own step sinks the lexicographic measure: handlings left, pending retry, tasks that come to nothing, room, undelivered events, queue, stage |
| `SessionStreamEnds.RestMeansCaughtUp` | apps/channel-gateway/src/session-stream-manager.ts:216-253 | an open stream at rest has its stored cursor at or past every event |
| `SessionStreamEnds.CanAlwaysFinish` | apps/channel-gateway/src/session-stream-manager.ts:191-253 | every state of an open stream has a continuation without further faults that ends with the stored cursor at or past every event |
| `StreamEviction.LiveStreams.EvictUntilUnderCap` | apps/channel-gateway/src/session-stream-manager.ts:114-128 | evicts in order of last activity and map position, keeps the rest unchanged and in order, counts the evictions, never more than needed; ends at or over the cap exactly when the map had a stream with the empty id and evicting all streams ahead of it would not get under the cap |
| `StreamEviction.LiveStreams.OldestStream` | apps/channel-gateway/src/session-stream-manager.ts:116-123 | finds the first in map order among the streams active longest ago, and none only if there is none |
| `StreamEviction.EvictionShortensTheLine` | apps/channel-gateway/src/session-stream-manager.ts:114-128 | evicting the stream whose turn it is takes just it off those ahead of any other |
| `StreamEviction.EmptyIdStaysOverCap` | apps/channel-gateway/src/session-stream-manager.ts:124-124 | a single stream with the empty id at a cap of one stays |
| `DeliverySubscriber.LateDeliveryMisleads` | apps/channel-gateway/src/gateway-runtime.ts:80-85 | while running, a delivery callback leaves the flag right exactly when a subscription is open |
| `DeliverySubscriber.LateDeliveryRun` | apps/channel-gateway/src/gateway-runtime.ts:80-85 | a start and a lost connection lead to a state with nothing open and a retry pending, where a late delivery sets the flag wrongly |
| `StableJsonTies.OneTextIffTieFree` | scripts/support/runtime-portability-proof-store.ts:54-63 | a value has the same text as every value equal to it exactly when no object inside it has two different keys that compare equal |
| `StableJsonTies.SortIsStable` | scripts/support/runtime-portability-proof-store.ts:57-58 | entries whose keys compare equal stay in the order in which they were set |
| `ProofStoreRuns.RetriesAcceptedIffTieFree` | scripts/support/runtime-portability-proof-store.ts:151-164 | every retry of an id with equal content, in whatever key order, is accepted exactly when the queued payload has no compare-equal keys |
| `StandaloneRuns.ReleasedLeaseIsFenced` | apps/standalone-gateway/src/repository.ts:105-110 | once a lease is released, nothing guarded by its token succeeds or changes anything again, whether or not somebody took the lease since |
| `InterruptFence.CallIsSafeIffClear` | apps/standalone-gateway/src/opencode.ts:113-122 | exactly which admitted calls are safe: in every continuation without a further call of the session the new prompt is posted only while all interrupts of the session have succeeded, if and only if at the call all of them had and no prompt of the session could still come to interrupt |
| `InterruptFence.UnclearCallEscapes` | apps/standalone-gateway/src/opencode.ts:113-122 | at any moment of any run that admits a call at a session that is not clear, a continuation without further calls leads to the new prompt about to be posted under an unsettled or failed interrupt |
| `InterruptFence.ClearCallsPostUnfenced` | apps/standalone-gateway/src/opencode.ts:113-257 | when every admitted call of a session comes at a clear moment, every POST of it starts with all its interrupts succeeded |
| `InterruptFence.SerialisedCallsAreClear` | apps/standalone-gateway/src/opencode.ts:113-257 | prompts that are called one after the other are called at clear moments |
| `InterruptFence.SerialisedPostsAreUnfenced` | apps/standalone-gateway/src/opencode.ts:113-257 | so when a session's prompts are serialised, a POST starts only while every interrupt ever issued for the session has succeeded |
| `InterruptFence.FailedInterruptClosesSession` | apps/standalone-gateway/src/opencode.ts:452-462 | after a failed interrupt a session whose calls come at clear moments never posts again |
| `InterruptFence.EarlyCallEscapesFence` | apps/standalone-gateway/src/opencode.ts:114-116 | the fence is looked at when a prompt is called: of two prompts called before either is posted, the second is posted under the interrupt of the first |
| `InterruptFence.OverlapEscapesFence` | apps/standalone-gateway/src/opencode.ts:456-462 | a second interrupt replaces the fence, and a third prompt is admitted and posts while the first interrupt is unsettled |
| `ChannelPrompts.ChannelPromptsAreSerialised` | apps/standalone-gateway/src/runtime.ts:148-203 | prompts called from serialised runs, one key per session, each awaited by its run, are serialised as the fence needs it, in every run of queues and adapter together |
| `ChannelPrompts.ChannelPostsAreUnfenced` | apps/standalone-gateway/src/runtime.ts:148-203 | so a channel prompt is posted only while every interrupt of its session has succeeded |
| `AuditPaging.PagesAreSlices` | packages/cloud-server/src/in-memory-domains/audit.ts:71-81 | with the sort's and the cursor's comparison agreeing on the matching keys of the stores: following the cursor, page i is slice i of the list that matched at the first page, with a next cursor exactly when the list goes on, whatever changes between pages among events that are not still to come; so nothing is skipped or repeated and it ends |
| `AuditPaging.FollowingShowsListing` | packages/cloud-server/src/in-memory-domains/audit.ts:71-81 | over one store whose matching keys the two comparisons order alike, the pages together are the sorted list of matching events, for every filter and limit |
| `AuditPaging.PageIsSlice` | packages/cloud-server/src/audit-query.ts:51-62 | one page is the next slice of the list, with the key of its last event as cursor exactly when something is left, when the comparisons agree at its cursor |
| `AuditPagingOrders.PagingExactIffKeysAgree` | packages/cloud-server/src/audit-query.ts:24-35 | for every store of distinct keys and every filter: with all limits the pages together are the sorted list, if and only if the two comparisons agree on the keys of the matching events |
| `AuditPagingOrders.AuditPagingExactIffStringsAgree` | packages/cloud-server/src/audit-query.ts:24-35 | for audit keys: if and only if the locale comparison and the code-unit comparison agree on the matching events' times and, among equal times, on their ids |
| `AuditPagingOrders.PagingExactIffOrdersAgree` | packages/cloud-server/src/audit-query.ts:24-35 | so all stores page exactly if and only if the comparisons agree on all keys |
| `AuditPagingOrders.AuditPagingExactIffComparisonsAgree` | packages/cloud-server/src/audit-query.ts:24-35 | and all audit stores if and only if the two order all strings alike |
| `AuditPagingOrders.DisagreementSkips` | packages/cloud-server/src/audit-query.ts:32-35 | two keys that the comparisons order differently: with pages of one, the second is never shown |
| `AuditPagingOrders.MixedCaseIdsSkip` | packages/cloud-server/src/audit-query.ts:24-35 | two events of one time with ids a and B, which a locale comparison and the code-unit comparison order differently, do not page exactly |
| `AuditPagingOrders.AuditOrderIsStrictTotal` | packages/cloud-server/src/audit-query.ts:24-27 | time, then id, is a strict total order of keys |

## Left out

- Exactly-once rendering across eviction and re-creation of a stream: stream results are about one stream's lifetime; idle sweeping is the same eviction by age.
- Backoff delays, jitter and telemetry counters: no modelled decision depends on them.
- The workspace sequence and the last chat message id stored with a cursor: copied along, never compared.
- The final ack status of a delivery: a failed `sent` ack may later be reported failed or dead for a message that was sent.
- Draining the dispatcher on shutdown, and the lane key's text: any lane key function is allowed.
- A second `start` of the delivery subscriber: the runtime starts it once.
- Sankey label trimming and number parsing (rows come trimmed and parsed, values as reals without rounding), and the pixel layout.
- Strings with lone surrogates: strings are sequences of Unicode scalar values; JSON numbers are the texts that are printed for them, and values JSON cannot express are excluded.
- `localeCompare` itself: it is a comparison parameter, a total preorder in the printer and a strict total order in paging; ISO time strings are compared as times.
- StableJsonTies.OneTextIffTieFree: takes any order of an object's entries; the host lists array-index keys first, so a tie between such a key and another has one order only and does no harm there.
- ProofStoreRuns.RetriesAcceptedIffTieFree: counts the same orders of entries that the host never produces.
- Aliasing of command payloads and the `createdAt` text of commands: payloads are values.
- Redaction, job payloads, last errors, event types and event payloads, channel identities, listing and dashboards of the standalone repository: stored or filtered without an effect on the modelled rules.
- An empty runtime session id, which the source treats like none: it is none here.
- Artifact retention: the in-memory store always reports zero.
- Normalisation of workspace and thread ids before a session is looked up: addresses come normalised.
- JobDrain.RunDueJobs: covers one runner, with no job queued, claimed, finished or pruned by anybody else while it drains.
- JobDrain.Meanwhile: states only that jobs stay untouched, because what handlers do to sessions and leases while a prompt runs is the environment's choice.
- The chunker for limits of 100 and more, which lives in another package, and a reply limit that is not a number.
- `abort` of the prompt adapter: it interrupts without a fence and touches no modelled state; event classification and projection are not modelled.
- The audit filter's fields: paging is proved for every filter predicate; the organisation check before the query is not modelled.
- Postgres stores, HTTP servers, webhooks, provider registries, the React app, charts other than the sankey columns, scripts and configuration: outside the modelled cores.
