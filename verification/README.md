# Verified model of the concurrent core

This project models the small concurrent state machines in the `internal/` packages of go-modulith-template, and
proves what holds of them in every interleaving. Method bodies that hold a mutex (and single channel or SQL
operations) are atomic steps; time is a number that never decreases; user functions, handlers, random numbers and
failures are arbitrary inputs. A run is any sequence of steps; a step that cannot happen leaves the state alone.

Each mutable object of the source is a class here, and each of its methods is proved to perform a step function on
its abstract state. The theorems are about runs of those step functions, and say what callers see: what is admitted,
sent, queued, stored and read back.

| files | modules | source |
|---|---|---|
| CircuitBreaker, BreakerRuns | CircuitBreakers, BreakerRuns | internal/resilience/circuit_breaker.go |
| Retry, RetryBreaker | Retries, RetryOverBreaker | internal/resilience/retry.go |
| Saga | Sagas | internal/saga/saga.go |
| HubModel, HubRuns, Hub | HubModel, HubRuns, Hubs | internal/websocket/hub.go |
| Queue | Queues | internal/queue/fallback.go |
| Outbox, OutboxDrain, Relay, RelayDrain | Outboxes, OutboxDrain, Relays, RelayDrain | internal/outbox/outbox.go, cmd/server/setup/server.go |
| AuthTransactions, AuthRuns | AuthTransactions, AuthRuns | modules/auth/internal/service/service.go |
| Decimal, TimedMap, CacheLaws, MemoryCache, CounterLaw | Decimals, TimedMaps, CacheLaws, MemoryCaches, CounterLaw | internal/cache/memory.go |
| CacheKeys | CacheKeys | internal/cache/cache.go, internal/cache/invalidator.go |
| RateLimit, IdleLimiters | RateWindows, IdleLimiters | internal/middleware/rate_limit.go |

`dafny verify dfyconfig.toml` checks everything.

## Where the code does less than one might expect

Each of these is proved, with the exact condition under which the code does keep the promise where there is one.

- A half-open circuit breaker can get stuck until Reset iff SuccessThreshold exceeds max(1, MaxHalfOpenRequests).
- Retry with MaxAttempts <= 0 never calls the function and returns nil. It does not clamp its first delay to MaxDelay,
  and its repeated truncation stops all growth iff InitialDelay * (Multiplier - 1) is less than one unit, where
  ExponentialBackoff still reaches MaxDelay.
- An outbox entry is marked published even when the queue refused it, so a batch that does not fit into the channel
  loses its tail. Undecodable entries are never marked, and batchSize of them block everything behind them for good,
  whatever is stored later and however many publishers poll.
- Rows and events are committed together only if an outbox repository is configured.
- The queue's Shutdown, called before Start, returns at once and does not keep handlers from starting later.
- Key is documented to skip empty parts, but a part made of ":" only is kept as an empty component.
  DeleteByPrefix with a bare key also removes siblings whose last part merely continues it.
- While the request that got 1 from the shared counter has not run Expire, nothing restarts the count. Within one
  process Expire follows at once; the block lasts for good only where the cache is shared and outlives a process that
  stops between the two calls.
- Forgetting idle limiters can be observed when the bucket does not fill up within ten minutes.

## Model

| member | source | states |
|---|---|---|
| `CircuitBreakers.CircuitBreaker.constructor` | internal/resilience/circuit_breaker.go:86-93 | a new breaker is closed, with all counters zero |
| `CircuitBreakers.CircuitBreaker.Before` | internal/resilience/circuit_breaker.go:126-160 | one admission leaves the fields, and gives the verdict, of the step function the runs are built from: open only after more than Timeout, half-open only below MaxHalfOpenRequests |
| `CircuitBreakers.CircuitBreaker.After` | internal/resilience/circuit_breaker.go:163-172 | recording a result is the step of onSuccess or onFailure, in whatever phase the result arrives |
| `CircuitBreakers.CircuitBreaker.Succeeded` | internal/resilience/circuit_breaker.go:175-187 | a success clears a closed breaker's failures, counts towards SuccessThreshold half-open, and is ignored while open |
| `CircuitBreakers.CircuitBreaker.Failed` | internal/resilience/circuit_breaker.go:190-203 | a failure is counted in every phase, opens a closed breaker at MaxFailures and a half-open one at once |
| `CircuitBreakers.CircuitBreaker.SetPhase` | internal/resilience/circuit_breaker.go:206-219 | staying in the same phase keeps lastStateChange |
| `CircuitBreakers.CircuitBreaker.ResetToClosed` | internal/resilience/circuit_breaker.go:222-230 | Reset closes and clears all counters |
| `BreakerRuns.CountersTellTheHistory` | internal/resilience/circuit_breaker.go:126-230 | in every run, `failures` of a closed breaker is the number of failures recorded since the last success, closing or Reset, and below max(1, MaxFailures); every half-open episode admits at most max(1, MaxHalfOpenRequests) calls |
| `BreakerRuns.RunsKeepInv` | internal/resilience/circuit_breaker.go:126-230 | the invariant behind these results, over every interleaving of admissions, late results and Reset: halfOpenRequests counts the episode's probes, consecutiveSuccess at least those that have returned |
| `BreakerRuns.ResultDecides` | internal/resilience/circuit_breaker.go:163-203 | in every run: a closed circuit opens exactly at the MaxFailures-th failure in a row, a half-open one opens exactly at a failure and closes - with failures 0 - exactly at the SuccessThreshold-th success recorded in its episode, an open one stays open |
| `BreakerRuns.AdmissionDecides` | internal/resilience/circuit_breaker.go:126-160 | in every run: closed admits, half-open admits exactly while the episode has probes to spare, open admits exactly after Timeout and then starts an episode with this call as its first probe; the two rejections are told apart |
| `BreakerRuns.ResetDecides` | internal/resilience/circuit_breaker.go:222-230 | Reset closes the circuit from any state and leaves calls in flight alone |
| `BreakerRuns.OpenRejectsForTimeout` | internal/resilience/circuit_breaker.go:134-146 | without Reset nothing is admitted until Timeout has passed since opening, however many stale results arrive |
| `BreakerRuns.OpenForExactlyTimeout` | internal/resilience/circuit_breaker.go:134-146 | counted from the step that opened the circuit: nothing is admitted until a request comes more than Timeout later, and that request is |
| `BreakerRuns.Recovers` | internal/resilience/circuit_breaker.go:134-186 | from every open state, whatever stale calls are out: if 1 <= SuccessThreshold <= max(1, MaxHalfOpenRequests), waiting past Timeout and SuccessThreshold succeeding probes close the circuit |
| `BreakerRuns.NeverWedges` | internal/resilience/circuit_breaker.go:126-203 | if SuccessThreshold <= max(1, MaxHalfOpenRequests), a half-open breaker with none of its episode's probes in flight always admits the next request |
| `BreakerRuns.WedgesAbovePermits` | internal/resilience/circuit_breaker.go:148-156 | otherwise the run in which all probes succeed ends half-open, with nothing in flight and the next request rejected |
| `BreakerRuns.WedgesIffThresholdExceedsProbes` | internal/resilience/circuit_breaker.go:126-203 | some run wedges the breaker iff SuccessThreshold > max(1, MaxHalfOpenRequests) |
| `BreakerRuns.WedgedUntilReset` | internal/resilience/circuit_breaker.go:148-230 | a wedged breaker with nothing in flight rejects every request at every later time until Reset, and Reset helps |
| `Retries.Retry` | internal/resilience/retry.go:44-88 | the loop returns the error, collects the results of fn and requests the waits of the recursive definition that the lemmas below are about |
| `Retries.RetryVerdict` | internal/resilience/retry.go:44-88 | at most MaxAttempts calls and MaxAttempts - 1 waits; nil is returned iff the last call succeeded or MaxAttempts <= 0; every call but the last failed with an error RetryIf accepts |
| `Retries.CallsInOrder` | internal/resilience/retry.go:50-61 | the results are those of calling fn once per attempt, each call starting where the one before ended |
| `Retries.WhyRetryStops` | internal/resilience/retry.go:50-87 | why Retry stops and with which error: success, an error RetryIf refuses, the last attempt, or the context, while waiting or before an attempt |
| `Retries.DefaultRetriesEveryError` | internal/resilience/retry.go:63-71 | without RetryIf and with a living context fn is called until it succeeds or MaxAttempts calls have failed |
| `Retries.RetryableIff` | internal/resilience/retry.go:113-130 | an error is retryable iff neither it nor anything it wraps is a context or breaker error |
| `Retries.JitterSpreads` | internal/resilience/retry.go:91-100 | jitter <= 0 gives the delay itself; otherwise the wait grows with the random number, from (1 - jitter) times the delay over the delay itself to (1 + jitter) times it |
| `Retries.WaitIsJitteredDelay` | internal/resilience/retry.go:74-84 | the i-th wait is the i-th unjittered delay with jitter |
| `Retries.DelayNeverExceedsBackoff` | internal/resilience/retry.go:84-141 | for every multiplier >= 0 the loop's k-th delay is at most ExponentialBackoff(k), iff k > 0 or InitialDelay <= MaxDelay |
| `Retries.DelayEqualsBackoff` | internal/resilience/retry.go:84-141 | for integer multipliers >= 1 it is equal to it, under the same exact condition |
| `Retries.NeverGrowsIff` | internal/resilience/retry.go:84-84 | for multipliers >= 1 the loop never leaves its first delay iff InitialDelay is MaxDelay, or is below it and InitialDelay * (Multiplier - 1) < 1 |
| `Retries.DelayStaysIff` | internal/resilience/retry.go:84-84 | the delay stays for good at its j-th value iff that value is MaxDelay, or below it with less than one unit to add (and the multiplier does not shrink it) |
| `Retries.DelayReachesMaximumIff` | internal/resilience/retry.go:84-84 | the loop ever waits MaxDelay iff InitialDelay >= MaxDelay or InitialDelay * (Multiplier - 1) >= 1 |
| `Retries.BackoffReachesMaximum` | internal/resilience/retry.go:133-141 | ExponentialBackoff reaches MaxDelay for every InitialDelay >= 1 and Multiplier > 1 |
| `Retries.FractionalMultiplierStalls` | internal/resilience/retry.go:84-84 | the witness: 1 with factor 1.5 stays at 1 where ExponentialBackoff is at 2 |
| `Retries.DelayBounds` | internal/resilience/retry.go:84-84 | truncating and clamping in every round stays within the exact product, and within MaxDelay from the first retry on |
| `Retries.TotalWaitBound` | internal/resilience/retry.go:44-100 | all waits together are at most (MaxAttempts - 1) * (1 + Jitter) * max(InitialDelay, MaxDelay) |
| `RetryOverBreaker.RunsWithinBudget` | internal/resilience/retry.go:44-130 | as the only user of a closed breaker with f failures, Retry runs the function at most min(MaxAttempts, MaxFailures - f) times |
| `RetryOverBreaker.OpenEndsRetry` | internal/resilience/retry.go:113-130 | once the circuit is open the next attempt is rejected and ends Retry, without another run or wait |
| `RetryOverBreaker.ExhaustedProbesEndRetry` | internal/resilience/retry.go:123-126 | so does a half-open circuit without probes to spare |
| `RetryOverBreaker.FailuresEndInRejection` | internal/resilience/retry.go:44-130 | if all runs fail retryably and attempts remain, exactly MaxFailures - f runs happen and the caller sees the rejection |
| `Sagas.Saga.AddStep` | internal/saga/saga.go:45-51 | a step is added at the end |
| `Sagas.Saga.Execute` | internal/saga/saga.go:55-79 | the loop leaves the state and returns the error of the recursive definition of a saga |
| `Sagas.Saga.Compensate` | internal/saga/saga.go:82-106 | compensation goes backwards, skips missing functions, goes on after failures and returns the error seen last |
| `Sagas.NilIffEveryStepSucceeds` | internal/saga/saga.go:55-79 | nil is returned iff every step ran and succeeded, and then all effects stay |
| `Sagas.FailureUnwindsCompleted` | internal/saga/saga.go:55-106 | a saga failing at step k compensates exactly the steps before k, from the state after step k, and names k |
| `Sagas.SagaErrorTells` | internal/saga/saga.go:62-72 | the error names the failing step and its cause, and carries the error of the earliest failing compensation iff some compensation failed |
| `Sagas.ReportsEarliestCompensationFailure` | internal/saga/saga.go:83-105 | the compensation error reported is that of the earliest step whose compensation failed |
| `Sagas.ReportsNoneIffNoneFailed` | internal/saga/saga.go:83-105 | none is reported iff none failed |
| `Sagas.FailingSagaRestores` | internal/saga/saga.go:55-106 | if failing steps change nothing and compensations undo, a failing saga ends in its initial state |
| `Sagas.OnlyUncompensatedStepsRemain` | internal/saga/saga.go:55-106 | with steps on disjoint components, exactly the components of completed steps with a missing or failed compensation keep their new values |
| `Sagas.UnwindComponents` | internal/saga/saga.go:82-106 | unwinding any suffix of the completed steps restores their components iff the compensation took effect, and touches no other |
| `Hubs.Client.constructor` | internal/websocket/client.go:46-54 | a client owns a fresh, empty, open channel |
| `Hubs.SendChannel.Send` | internal/websocket/hub.go:112-116 | a non-blocking send, allowed on open channels only, drops the message iff 256 are waiting |
| `Hubs.Hub.RegisterClient` | internal/websocket/hub.go:137-155 | registering updates both maps as the model's step does, making an inner map for a new user |
| `Hubs.Hub.UnregisterClient` | internal/websocket/hub.go:157-183 | unregistering removes the client from both maps, detaches an inner map that became empty and closes the channel once |
| `Hubs.Hub.BroadcastMessage` | internal/websocket/hub.go:185-196 | every registered client is offered the message once |
| `Hubs.Hub.SendToAll` | internal/websocket/hub.go:110-118 | the loop offers the message to exactly those of the ids that are registered |
| `Hubs.Hub.LookupUser` | internal/websocket/hub.go:97-105 | the first half of SendToUser returns the identity of the inner map listed now |
| `Hubs.Hub.DeliverTo` | internal/websocket/hub.go:107-118 | the second half works on the inner map held, listed or not |
| `Hubs.Hub.GetConnectedUsers` | internal/websocket/hub.go:122-127 | the size of the index |
| `Hubs.Hub.ShutdownAll` | internal/websocket/hub.go:198-212 | every channel is closed once and both maps are replaced |
| `HubRuns.NoSendAfterClose` | internal/websocket/hub.go:97-212 | in every interleaving no send hits a closed channel, no channel is closed twice, a channel is open iff its client is registered, at most 256 messages wait, and what a client received and has waiting is what was accepted for it, in order |
| `HubRuns.IndexAgreesWithClients` | internal/websocket/hub.go:121-183 | the index lists exactly the registered connections of each non-empty user, has no empty inner map, and its size is the number of distinct users |
| `HubRuns.DropsOnlyWhenFull` | internal/websocket/hub.go:97-196 | a message is dropped for a client only when 256 are waiting for it |
| `HubRuns.RegistryFollowsRun` | internal/websocket/hub.go:137-212 | a connection is registered, for its user, iff the run registered it and has neither unregistered it nor shut down since |
| `HubRuns.ShutdownClosesEverything` | internal/websocket/hub.go:198-212 | after a shutdown both maps are empty and every channel ever made is closed |
| `HubRuns.BroadcastReachesEveryone` | internal/websocket/hub.go:185-196 | broadcasting appends the message to what waits for each registered connection with fewer than 256 waiting, and changes nothing else |
| `HubRuns.InnerMapKeepsRegistered` | internal/websocket/hub.go:157-175 | even a detached inner map loses a connection only when that connection is unregistered |
| `HubRuns.SendToUserReachesTheUser` | internal/websocket/hub.go:97-119 | whatever happens between its halves, SendToUser offers the message exactly once to every connection of the user registered throughout, and to no connection of another user |
| `HubRuns.SendToUserFillsBuffers` | internal/websocket/hub.go:97-119 | the same in terms of what waits: appended for connections of that user only, including all registered at both halves, where fewer than 256 wait; nothing else changes |
| `HubRuns.RunKeepsInv` | internal/websocket/hub.go:97-212 | the invariant of all interleavings of register, unregister, broadcast, shutdown and the two halves of SendToUser |
| `Queues.InMemoryQueue.EnqueueTask` | internal/queue/fallback.go:28-39 | a task is accepted iff fewer than 1000 wait, and refused without effect otherwise |
| `Queues.InMemoryQueue.HandleFunc` | internal/queue/fallback.go:63-68 | a handler is added for the kind |
| `Queues.InMemoryQueue.StartWorker` | internal/queue/fallback.go:71-74 | starting raises the wait group by one |
| `Queues.InMemoryQueue.ReceiveTask` | internal/queue/fallback.go:76-79 | the worker takes the oldest task, even when stop is closed |
| `Queues.InMemoryQueue.ExitWorker` | internal/queue/fallback.go:77-78 | the worker may leave only when stop is closed |
| `Queues.InMemoryQueue.LookUpHandler` | internal/queue/fallback.go:80-87 | a task without a handler is dropped |
| `Queues.InMemoryQueue.SpawnHandler` | internal/queue/fallback.go:89-98 | the wait group is raised before the handler starts |
| `Queues.InMemoryQueue.FinishHandler` | internal/queue/fallback.go:91-91 | a finished handler lowers the wait group |
| `Queues.InMemoryQueue.Shutdown` | internal/queue/fallback.go:107-109 | Shutdown closes stop |
| `Queues.InMemoryQueue.WaitReturn` | internal/queue/fallback.go:110-110 | Wait returns only when the count is zero |
| `Queues.EveryTaskAccountedFor` | internal/queue/fallback.go:28-101 | in every run the count is (worker live) + (handlers running), the tasks taken out are a prefix of those accepted, and each is dispatched exactly once or was dropped for lack of a handler |
| `Queues.HandledKindsAreDispatched` | internal/queue/fallback.go:80-98 | a task whose kind has a handler is dispatched when its turn comes |
| `Queues.DispatchedHaveHandlers` | internal/queue/fallback.go:80-98 | only tasks whose kind has a handler are dispatched |
| `Queues.HandlersFollowRun` | internal/queue/fallback.go:63-68 | the handlers are those the run registered |
| `Queues.AcceptedIffRoom` | internal/queue/fallback.go:28-39 | in every run a task joins the end of the channel iff fewer than 1000 wait |
| `Queues.EveryTaskCanFinish` | internal/queue/fallback.go:71-101 | once started and not shut down, worker and handlers can from every reachable state by themselves take every accepted task, in order, and finish every handler |
| `Queues.ShutdownCanReturn` | internal/queue/fallback.go:107-112 | a waiting Shutdown can always return: from every reachable state worker and handlers can end by themselves |
| `Queues.ShutdownWaitsForAll` | internal/queue/fallback.go:71-112 | if Start precedes Shutdown, the wait group is never raised from zero during Wait, and after Shutdown the worker is gone and every dispatched task has finished |
| `Queues.ShutdownSafeIffStarted` | internal/queue/fallback.go:71-112 | a first Shutdown keeps that promise in every continuation iff Start was called before it |
| `Queues.ShutdownBeforeStart` | internal/queue/fallback.go:107-112 | otherwise it returns at once and a handler can start afterwards |
| `Outboxes.Table.Store` | internal/outbox/outbox.go:65-84 | an entry is appended unpublished, or nothing happens |
| `Outboxes.Table.GetUnpublished` | internal/outbox/outbox.go:87-130 | the oldest unpublished entries, at most limit |
| `Outboxes.Table.MarkPublished` | internal/outbox/outbox.go:133-150 | exactly the named entries become published; no ids, no query |
| `Outboxes.Publisher.Process` | internal/outbox/outbox.go:217-252 | the decodable entries of the batch are handed over in order, whether or not marking succeeds, and exactly these are marked |
| `OutboxDrain.ProcessedLeaves` | internal/outbox/outbox.go:217-252 | a poll leaves unpublished the undecodable entries of its batch and everything behind the batch |
| `OutboxDrain.HandedInOrder` | internal/outbox/outbox.go:87-252 | after any number of polls: handed over plus still to hand over is what was to be handed over, in created_at order, each entry once |
| `OutboxDrain.DrainBound` | internal/outbox/outbox.go:87-252 | with p < batchSize undecodable entries, d decodable ones are all handed over within ceil(d / (batchSize - p)) polls |
| `OutboxDrain.DrainProgress` | internal/outbox/outbox.go:217-252 | every poll hands over batchSize - p decodable entries or all that are left |
| `RelayDrain.ReachableIsSound` | internal/outbox/outbox.go:65-252 | in every run of the relay ids are unique, only decodable entries are marked published, batches in progress are rows of the table, and publishedIDs are their decodable entries so far |
| `RelayDrain.RoundProgress` | internal/outbox/outbox.go:217-252 | one completed Process, with any steps before and during it, hands over the entry at j or takes limit - g decodable entries out of its way, g being the undecodable ones before it |
| `RelayDrain.EntryHandedInTime` | internal/outbox/outbox.go:87-252 | in every run, with new entries, failures, stops and other publishers at any moment: an entry with g < batchSize undecodable and d waiting decodable entries before it has been handed over after ceil((d + 1) / (batchSize - g)) completed calls of Process |
| `RelayDrain.EntryStuck` | internal/outbox/outbox.go:229-235 | with g >= batchSize and no batch in progress holding it, it is never handed over again in any run whose polls read at most batchSize entries |
| `RelayDrain.EntryHandedIffFewGarbageAhead` | internal/outbox/outbox.go:87-252 | a decodable entry has been or can be handed over iff it was already, a batch in progress holds it, or g < batchSize |
| `RelayDrain.BlockedForGoodIff` | internal/outbox/outbox.go:217-252 | nothing is ever handed over again, in any continuation, iff the oldest batchSize unpublished entries are all undecodable and no batch in progress has a decodable entry left |
| `Relays.MarkedOnlyAfterHandedOver` | internal/outbox/outbox.go:217-252 | with any number of publishers failing or stopping anywhere, an entry is marked published only after it was handed to the PublisherFunc |
| `Relays.EachHandOverHasOneFate` | cmd/server/setup/server.go:103-113 | every hand-over is exactly one of rejected, waiting, held by the worker, dispatched to a handler, dropped for lack of one |
| `Relays.TasksCarryEntries` | cmd/server/setup/server.go:104-107 | in every run each task accepted by the queue, waiting or dispatched, has the name and the payload of the entry handed over |
| `Relays.HandedEntriesReachTheirHandler` | cmd/server/setup/server.go:103-113 | a hand-over decided after its entry's name got a handler is dispatched with that name and payload, and one is dispatched only if its name has a handler |
| `Relays.PublishToQueue` | cmd/server/setup/server.go:103-113 | the closure on the queue object: a task with name and payload joins the channel iff marshalling succeeds and fewer than 1000 wait; failures change nothing |
| `Relays.NoRejectionWithRoom` | cmd/server/setup/server.go:103-113 | a single publisher that finds batchSize free slots at each poll never sees the queue full |
| `Relays.ProcessLosesNothingIffBatchFits` | cmd/server/setup/server.go:103-113 | an uninterrupted Process marks every decodable entry, but enqueues only as many as slots are free; nothing is lost iff they all fit |
| `Relays.UninterruptedStepsAreProcess` | internal/outbox/outbox.go:217-252 | the steps of one publisher without interruption are one call of Process |
| `AuthTransactions.AuthService.HandleLogin` | modules/auth/internal/service/service.go:123-142 | the transaction of RequestLogin commits code and event, or nothing |
| `AuthTransactions.AuthService.HandleRegister` | modules/auth/internal/service/service.go:269-309 | the transaction of Register commits user, profile, role and event, or nothing |
| `AuthTransactions.AuthService.HandleChange` | modules/auth/internal/service/service.go:919-954 | the transactions of ChangeEmail and ChangePhone commit pending change and event, or nothing |
| `AuthRuns.LoginCommitsIff` | modules/auth/internal/service/service.go:87-142 | exactly when a login request commits, and what: one code and one entry with its code, email and phone if the user is found and no write fails, nothing otherwise |
| `AuthRuns.RegisterCommitsIff` | modules/auth/internal/service/service.go:269-305 | exactly when a registration commits, and what |
| `AuthRuns.ChangeCommitsIff` | modules/auth/internal/service/service.go:919-954 | exactly when a contact change commits, and what |
| `AuthRuns.RowAndEventTogether` | modules/auth/internal/service/service.go:123-142 | over whole runs with the relay: every code and every pending change has an entry of its own, with its code and its recipient; every entry is unpublished or was handed over; every user committed by Register has exactly the role "user" and exactly one registered entry |
| `AuthRuns.CodeOnItsWay` | modules/auth/internal/service/service.go:129-139 | so each magic code in the database has an entry with the same code, email and phone that is unpublished or was handed over |
| `AuthRuns.ChangeOnItsWay` | modules/auth/internal/service/service.go:943-951 | and each pending change one with the same code and the new contact |
| `AuthRuns.TogetherIffOutboxConfigured` | modules/auth/internal/service/service.go:296-303 | all of this holds in every run iff the outbox repository is configured |
| `AuthRuns.UntoldCode` | modules/auth/internal/service/service.go:123-142 | without it the first login of a user leaves a code that no entry carries |
| `AuthRuns.RegisterCommits` | modules/auth/internal/service/service.go:283-305 | a committed Register adds a new user with exactly the role "user" and one entry |
| `AuthRuns.RunKeepsInv` | modules/auth/internal/repository/repository.go:153-166 | the invariant of all runs of committed and rolled back transactions and relay steps |
| `MemoryCaches.MemoryCache.Get` | internal/cache/memory.go:72-90 | the live value, in a slice of its own |
| `MemoryCaches.MemoryCache.Exists` | internal/cache/memory.go:152-166 | whether the item is there and live |
| `MemoryCaches.MemoryCache.Set` | internal/cache/memory.go:93-113 | the item is replaced by a copy of the caller's slice, with a deadline iff ttl > 0 |
| `MemoryCaches.MemoryCache.Delete` | internal/cache/memory.go:116-123 | the key goes, nothing else |
| `MemoryCaches.MemoryCache.DeleteMany` | internal/cache/memory.go:126-135 | exactly the named keys go |
| `MemoryCaches.MemoryCache.DeleteByPrefix` | internal/cache/memory.go:138-149 | exactly the keys that start with the prefix go |
| `MemoryCaches.MemoryCache.Increment` | internal/cache/memory.go:169-194 | missing or expired counters restart at 1 without a deadline, others are parsed, raised with int64 wrap-around and reprinted; a value that does not parse is left alone |
| `MemoryCaches.MemoryCache.Decrement` | internal/cache/memory.go:197-222 | the same downwards, restarting at -1 |
| `MemoryCaches.MemoryCache.Expire` | internal/cache/memory.go:225-242 | the deadline of a live item is set, or removed for ttl <= 0 |
| `MemoryCaches.MemoryCache.Close` | internal/cache/memory.go:250-261 | the cache is emptied |
| `MemoryCaches.MemoryCache.DeleteExpired` | internal/cache/memory.go:288-297 | only expired items go, and every item already expired when the loop starts goes |
| `MemoryCaches.CallersMayScribble` | internal/cache/memory.go:85-99 | no stored buffer is shared: overwriting the slice given to Set and the slice got from Get changes nothing in the cache |
| `Decimals.RoundTrip` | internal/cache/memory.go:176-191 | printing and parsing a counter is the identity on every int64, negative ones included |
| `Decimals.WrapAdd` | internal/cache/memory.go:190-190 | wrapping at every step is wrapping once |
| `Decimals.WrapCongruent` | internal/cache/memory.go:190-190 | wrapping changes a number by a multiple of 2^64 |
| `Decimals.ParseReads` | internal/cache/memory.go:185-188 | a text is read as blanks, a sign and digits up to the first other byte; numbers beyond int64 are refused |
| `Decimals.ParseRefuses` | internal/cache/memory.go:185-188 | without a digit behind blanks and sign the text is refused |
| `Decimals.PrintsDecimals` | internal/cache/memory.go:177-177 | numbers are printed in decimal |
| `TimedMaps.CacheRefinesTimedMap` | internal/cache/memory.go:19-297 | in every run every reply is that of a plain map whose items vanish when they expire, whatever moments the cleanup runs at |
| `TimedMaps.ApplyLikePlain` | internal/cache/memory.go:72-242 | one operation that checks deadlines lazily answers, and leaves, what the plain operation does on the purged map |
| `TimedMaps.RunAgrees` | internal/cache/memory.go:72-297 | stores that agree on live items stay so in every run |
| `CacheLaws.SetThenGet` | internal/cache/memory.go:72-113 | over any run that leaves the key alone, with the cleanup at any moment: Get returns what was set exactly until ttl has passed (for good without a positive ttl), NotFound afterwards |
| `CacheLaws.ExpireThenGet` | internal/cache/memory.go:225-242 | Expire on a live item makes Get return it exactly until the new ttl has passed; on anything else it reports NotFound and nothing changes |
| `CacheLaws.RemoveThenGet` | internal/cache/memory.go:116-149 | what Delete, DeleteMany, DeleteByPrefix or Close removed is not found any more |
| `CacheLaws.UntouchedThenGet` | internal/cache/memory.go:72-90 | what is left alone is got as before, until it expires |
| `CacheLaws.ExistsLikeGet` | internal/cache/memory.go:152-166 | Exists tells whether Get would find the item |
| `CacheLaws.SetThenCount` | internal/cache/memory.go:169-222 | counting up or down from a stored text: the next number is returned and stored; a text that is no number is refused and stays |
| `CounterLaw.CounterReturnsNet` | internal/cache/memory.go:169-242 | over any run that touches a key only by Increment, Decrement, Expire and cleanup, the number returned is increments minus decrements since the key was last absent or expired, within int64 |
| `CounterLaw.RunAgreesWithTally` | internal/cache/memory.go:169-297 | the stored text and deadline are those of the integer counter after every such run |
| `CacheKeys.Key` | internal/cache/cache.go:75-86 | the loop builds the key of the specification |
| `CacheKeys.SplitUndoesKey` | internal/cache/cache.go:75-86 | on non-empty parts without ":" splitting is the inverse of Key |
| `CacheKeys.KeyInjective` | internal/cache/cache.go:75-86 | such parts have equal keys iff they are equal |
| `CacheKeys.TrimStrips` | internal/cache/cache.go:82-82 | separators around a part are removed, those inside stay |
| `CacheKeys.PaddingIgnored` | internal/cache/cache.go:75-86 | separators before and after parts do not change the key, which still splits into the bare parts |
| `CacheKeys.EmptyPartsSkipped` | internal/cache/cache.go:77-80 | empty parts do not change the key, wherever they stand |
| `CacheKeys.EmptyComponentIff` | internal/cache/cache.go:77-83 | a key gets an empty component iff some part consists of ":" only |
| `CacheKeys.ColonPartIsNotSkipped` | internal/cache/cache.go:77-83 | so Key("a", ":", "b") is "a::b" |
| `CacheKeys.PrefixIsDescent` | internal/cache/cache.go:75-86 | Key(ps) starts with Key(qs) + ":" iff qs is a non-empty proper prefix of ps |
| `CacheKeys.BarePrefixMatches` | internal/cache/cache.go:75-86 | without the ":" the last part of qs need only be a string prefix |
| `CacheKeys.RemovesExactlyDescendants` | internal/cache/memory.go:138-149 | DeleteByPrefix(Key(qs) + ":") removes exactly the strict descendants of qs |
| `CacheKeys.BarePrefixOverreaches` | internal/cache/memory.go:138-149 | what DeleteByPrefix(Key(qs)) removes beyond the subtree of qs |
| `CacheKeys.UserTenGoesWithUserOne` | internal/cache/memory.go:142-146 | DeleteByPrefix("user:1") removes "user:10" |
| `CacheKeys.InvalidateKeys` | internal/cache/invalidator.go:38-44 | the handler of SubscribeKeys removes exactly the keys |
| `CacheKeys.InvalidatePrefixes` | internal/cache/invalidator.go:55-63 | the handler of SubscribePrefixes removes exactly the keys that start with one of the prefixes |
| `CacheKeys.SubtreeInvalidation` | internal/cache/invalidator.go:33-66 | the two handlers together remove the subtree of qs and nothing else, in either order |
| `RateWindows.CheckCentralizedLimit` | internal/middleware/rate_limit.go:93-107 | Increment, Expire for the caller that got 1, and a block iff the count exceeds 2 * burst; an error lets the request pass |
| `RateWindows.UninterruptedCheck` | internal/middleware/rate_limit.go:93-107 | without interference the two steps of a caller are one call of the method |
| `RateWindows.NoDeadlineWhileUnarmed` | internal/middleware/rate_limit.go:96-103 | over any interleaving of callers, cleanup and time, the counter has no deadline exactly while the one caller that got 1 last has not run Expire; otherwise its deadline is at most one second away |
| `RateWindows.RunKeepsInv` | internal/middleware/rate_limit.go:93-107 | the invariant behind it |
| `RateWindows.PassPerWindow` | internal/middleware/rate_limit.go:96-106 | between two resets the counts are 1, 2, 3, ... and exactly the first 2 * burst requests pass |
| `RateWindows.BlockEndsInTime` | internal/middleware/rate_limit.go:101-106 | once Expire has run, a request more than a second later finds the count restarted or restarts it, whatever happened meanwhile |
| `RateWindows.WindowLastsASecond` | internal/middleware/rate_limit.go:101-106 | and not before: within one second of Expire the requests after the first keep getting 2, 3, 4, ..., those beyond 2 * burst blocked |
| `RateWindows.KeyForInjective` | internal/middleware/rate_limit.go:94-94 | different addresses have different counters |
| `RateWindows.BlockedForGood` | internal/middleware/rate_limit.go:96-106 | as long as that caller has not run Expire the count does not restart, and everything beyond 2 * burst is blocked |
| `RateWindows.FirstArrivalIsUnarmed` | internal/middleware/rate_limit.go:96-103 | the very first request is such a caller until its Expire |
| `IdleLimiters.ForgettingUnobservableIff` | internal/middleware/rate_limit.go:31-126 | runs with CleanupExpired admit exactly the requests of the runs without it, for all runs, iff the bucket fills within maxAge (or burst <= 0) |
| `IdleLimiters.RunsAlike` | internal/middleware/rate_limit.go:47-126 | the simulation behind one direction: what was forgotten was full |
| `IdleLimiters.AdmissionsWithinLimit` | internal/middleware/rate_limit.go:81-86 | in any run one address is admitted at most burst + rps * seconds times, with forgetting too if buckets refill before |
| `IdleLimiters.PacedRequestAdmitted` | internal/middleware/rate_limit.go:81-86 | in any run a request that comes after the time one token takes is admitted |
| `IdleLimiters.BurstAdmitted` | internal/middleware/rate_limit.go:57-58 | the first burst requests of an address at one instant are admitted |
| `IdleLimiters.ProbeTells` | internal/middleware/rate_limit.go:110-126 | the run that tells the difference otherwise: spend the burst, wait just over maxAge, spend it again |
| `IdleLimiters.RefillsInTimeInSeconds` | internal/middleware/rate_limit.go:31-38 | for rps below 10^9 the condition is rps * 600 >= burst |
| `IdleLimiters.RateLimiter.GetLimiter` | internal/middleware/rate_limit.go:47-64 | an existing limiter is touched, a missing one is made full |
| `IdleLimiters.RateLimiter.Admit` | internal/middleware/rate_limit.go:81-86 | lookup and Allow of one request |
| `IdleLimiters.RateLimiter.CleanupExpired` | internal/middleware/rate_limit.go:115-124 | one tick removes exactly the limiters not used for more than maxAge |

## Left out

- CircuitBreakers.CircuitBreaker.After: a panicking function (its result is never recorded) and the OnStateChange callback are not part of this model.
- Retries.Retry: durations are unbounded integers and factors reals, so float64 rounding and int64 overflow are not part of this model; the random number is any real in [0, 1).
- Retries.DelayNeverExceedsBackoff: ExponentialBackoff is modelled for attempts >= 0 only; the loop never asks for others.
- Hubs.Hub.RegisterClient: requires an id and a channel that were not registered before: connection ids are taken to be fresh (they are uuids) and each client to be registered once, as NewClient and its callers do.
- Hubs.Hub.BroadcastMessage: the channels between Broadcast, ReadPump and Run are left out; ReadPump and WritePump appear only as unregistering and as taking messages from the buffer.
- Queues.InMemoryQueue.StartWorker: requires that no worker was started; a second Start, which adds a second worker, and several servers on the one global channel are not part of this model.
- Queues.InMemoryQueue.Shutdown: a second Shutdown (it panics) is not part of this model.
- Outboxes.Table.Store: ids are the nanosecond stamps the source uses, unique by the primary key; created_at order is taken to be commit order.
- Outboxes.Publisher.Process: a negative batch size (a database error) is not part of this model; the ticker of Start is any sequence of polls.
- AuthRuns.RowAndEventTogether: rows and entries are matched by code and recipient, not by identity; codes and pending changes go by DELETE statements that treat equal rows alike.
- AuthTransactions.AuthService.HandleLogin: expiry times, the locale and the response are left out of the rows and payloads.
- AuthTransactions.AuthService.HandleRegister: nationality and document fields of the payload, the profile's other columns, and users created by OAuth, seeds or administrators are left out.
- MemoryCaches.MemoryCache.Increment: blanks outside ASCII before a stored number, which Sscanf also skips, are not part of this model.
- RateWindows.BlockedForGood: that a process stops between Increment and Expire, and the shared cache that outlives it, are taken as given; the cache modelled here lives in the process.
- RateWindows.NoDeadlineWhileUnarmed: stated for runs with fewer than 2^63 counted requests, beyond which int64 counts wrap around.
- IdleLimiters.RateLimiter.Admit: lookup and Allow read the clock once; golang.org/x/time/rate is taken as a token bucket that starts full, without float rounding.
- JSON contents: a payload either decodes into an object or does not; re-marshalling it may fail arbitrarily.
- SQL text, the driver, isolation levels and connection failures: a transaction commits iff its body returns nil.
- The event bus: only that a subscribed handler body runs.
- StringCache, Ping, Len, Steps, State and Failures: they only read or delegate.
- The Valkey, Kafka and asynq variants, configuration, HTTP and gRPC wiring, tokens, encryption, notifiers, RBAC and feature flags.
