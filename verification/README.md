# Creditra backend: verified model

A Dafny model of the parts of the Creditra backend in which correctness spans many calls, and
proofs about them. Each Dafny file models one component; classes stand for the objects whose
fields the program updates, and each of their methods is proved to take the step of a pure
state machine over which the theorems are stated.

| file | component |
|---|---|
| `TokenBucket.dfy`, `RateLimitStores.dfy` | the token-bucket limiter: TypeScript form, Lua form, in-memory and Redis stores |
| `JobQueue.dfy`, `InMemoryJobQueue.dfy` | the in-memory job queue as an interleaving state machine, and the queue object |
| `WebhookDelivery.dfy` | outbound webhook deliveries run as jobs of that queue |
| `CursorPagination.dfy` | cursor pagination over a changing collection |
| `AnomalyDetection.dfy` | anomaly rules over a bounded activity buffer |
| `Decimal.dfy`, `OnChainEnumeration.dfy`, `Reconciliation.dfy` | exact decimal strings, contract enumeration, database/chain reconciliation |
| `IdempotencyStore.dfy`, `CanonicalText.dfy` | the idempotency store and the canonical request text |
| `CreditLedger.dfy` | draws and repays: stepped balance and ledger sum |
| `CsvExport.dfy` | the CSV writer and a reader that inverts it |
| `Wrappers.dfy`, `Reals.dfy` | options, results and number helpers |

Clock readings are integer milliseconds passed as arguments; amounts, tokens and ratios are
exact reals; every `await` is a point where other steps of the state machine may run, except inside
a draw or a repay, which are taken one after the other; answers of servers, handlers and the
network are arguments. `localeCompare` is any strict total order.

Facts about the code that the proofs bring out:

- The limiter's sweep compares stored tokens with the capacity of the call that sweeps. With one
  capacity it removes nothing at all (`SweepNeverRemoves`), although its comment speaks of idle
  buckets; with different capacities in one store it can refill another key early, and
  `MemoryAgreesIff` says exactly when.
- A job pushed back by `drain` can be left without a timer until the next enqueue, drain or stop
  (`DrainCanLoseWakeUp`, `AsleepStays`); `WakeUpKeptIff` is the exact condition.
- The cooldown of anomaly signals is checked before and stamped after an awaited `create`, so
  overlapping observations of one line can signal twice (`OverlappingDrawsSignalTwice`) and can
  move the stamp back in time (`OverwrittenStampSignalsEarly`); `NextCheckIsSafeIff` is the exact
  condition of one check. A rejected `create` drops the remaining rules (`FiredRulesAreSignalled`).
- The queue's header comment promises exponential backoff; the code waits a constant
  `retryBackoffMs`, and that is what is modelled and proved.
- `fail` forgets completed attempts too (`ForgottenAfterFail`), and a waiter on a pending record
  that expires is never answered (`LeftWaiting`); `ReplaysIff` and `WaitersHangIff` are the exact
  conditions.
- The Postgres repository ignores the stored balance and derives it from the ledger; after an
  overpayment it can lend more than the stepped balance would (`LedgerLendsMoreIff`).

Verify with `dafny verify dfyconfig.toml`.

## Model

| member | source | states |
|---|---|---|
| TokenBucket.AllowedInEveryWindow | src/middleware/rateLimit.ts:527-568 | in the configured numbers alone, a capacity or window below one counting as one: on any history over a non-decreasing clock a request is allowed exactly when, for every earlier-or-equal request j, the requests allowed from j on plus this one, times the window, are at most capacity * (window + elapsed), which is capacity + elapsed * capacity / window |
| TokenBucket.AllowedIff | src/middleware/rateLimit.ts:527-568 | the same in terms of the budget of an interval, as the other results use it |
| TokenBucket.TokensAreLeastSlack | src/middleware/rateLimit.ts:540-547 | the tokens a request finds are the least slack of all intervals ending at it: no interval has less and a named one has exactly that |
| TokenBucket.LimiterIsMostPermissive | src/middleware/rateLimit.ts:527-568 | the limiter's own decisions overrun no interval, and no decision vector that overruns no interval admits more requests in any prefix of the history |
| TokenBucket.LuaAgreesIff | src/middleware/rateLimit.ts:126-185 | the Lua script leaves the same bucket and gives the same allowed, remaining and resetAt as the TypeScript function, for every stored bucket and time, exactly when capacity >= 1 and window > 0 |
| TokenBucket.ConsumeKeepsBounds | src/middleware/rateLimit.ts:549-567 | a stored bucket holds at least 0 and strictly fewer tokens than the capacity |
| TokenBucket.ForgettingIsInvisibleIff | src/middleware/rateLimit.ts:540-547 | dropping a bucket is invisible to a request exactly when the bucket is full again by then |
| TokenBucket.DenialHintIsTight | src/middleware/rateLimit.ts:562-567 | after a denial a request is allowed exactly from resetAt on, and a repeated denial repeats the hint |
| TokenBucket.DenialsKeepTheirPromise | src/middleware/rateLimit.ts:562-567 | in a whole history, every request between a denial and its hint is denied with the same hint and the first at or after the hint is allowed |
| TokenBucket.FullHintIsTight | src/middleware/rateLimit.ts:549-559 | after an allowed request resetAt is the first integer time at which the untouched bucket is full |
| TokenBucket.RemainingIsExact | src/middleware/rateLimit.ts:549-559 | after an allowed answer exactly `remaining` further requests at the same instant are allowed |
| TokenBucket.ClockBackRefillsNothing | src/middleware/rateLimit.ts:544-546 | a clock that went back refills nothing |
| TokenBucket.LuaNeverAllows | src/middleware/rateLimit.ts:126-185 | with a capacity below one or without a positive window the script allows nothing; without a positive capacity and window it writes nothing and hints at the end of the window |
| RateLimitStores.InMemoryRateLimitStore.Cleanup | src/middleware/rateLimit.ts:311-321 | the sweep keeps exactly the buckets that are not both idle for twice the window and at the caller's capacity |
| RateLimitStores.InMemoryRateLimitStore.Consume | src/middleware/rateLimit.ts:292-304 | one call sweeps, charges the key's bucket and changes no other bucket |
| RateLimitStores.MemoryAgreesIff | src/middleware/rateLimit.ts:292-321 | with whole capacities, the sweeping store answers every history like one that forgets nothing exactly when, for every two keys, the sweeper's capacity plus what the other refills in the sweeper's idle time reaches the other's capacity |
| RateLimitStores.HarmIsVisible | src/middleware/rateLimit.ts:315-320 | wherever that fails, a concrete history is answered differently |
| RateLimitStores.SweepForgetsIff | src/middleware/rateLimit.ts:311-321 | the sweep forgets a bucket exactly if it is idle for at least twice the window and a millisecond and holds the capacity, and leaves the others as they are |
| RateLimitStores.RedisForgetsIff | src/middleware/rateLimit.ts:161-161 | a charge keeps the Redis key alive for exactly twice the window |
| RateLimitStores.SweepNeverRemoves | src/middleware/rateLimit.ts:311-321 | where all keys share one capacity the sweep removes nothing in any history, so the map never shrinks |
| RateLimitStores.RedisAgrees | src/middleware/rateLimit.ts:136-161 | Redis with keys expiring after twice the window answers every history like a store that forgets nothing, for per-key limits with capacity >= 1 and window > 0 |
| RateLimitStores.ThreeStoresAgree | src/middleware/rateLimit.ts:126-185 | under one configuration the memory store, the Redis store and a store that forgets nothing give equal answers on every history over one non-decreasing clock |
| RateLimitStores.KeyIsOnItsOwn | src/middleware/rateLimit.ts:292-304 | among any other keys' requests, each request is answered as in the history of its own key's requests, so the theorems on one key's history hold in a store of many keys |
| RateLimitStores.StoresAllowIff | src/middleware/rateLimit.ts:126-185 | in the memory and the Redis store, over any mixture of keys, a request is allowed exactly when no interval of its own key's history exceeds capacity + elapsed * capacity / window |
| JobQueue.StepKeeps | src/services/jobQueue.ts:138-288 | every step of the event loop keeps the queue invariant: one activation at a time, guarded by `processing`, and every job consistent with where it is |
| JobQueue.RunKeeps | src/services/jobQueue.ts:138-288 | the invariant holds after every interleaving of enqueues, starts, stops, timer callbacks, drains and handler completions |
| JobQueue.RunConserves | src/services/jobQueue.ts:234-288 | in every run each accepted job is in exactly one of pending, running batch, finished and dead-letter, and nothing else is anywhere |
| JobQueue.QueueIsSafe | src/services/jobQueue.ts:124-289 | from a new queue, in any interleaving: at most one handler runs; each accepted job is in one place; no handler starts before nextRunAt or the requested delay; retries are at least the backoff apart; a job, also while its handler runs, has been tried at most max(1, maxAttempts) times, and a dead-lettered one exactly that often or, for want of a handler, never |
| JobQueue.QueueIsFair | src/services/jobQueue.ts:138-288 | first come, first served: in every interleaving every job is the one enqueued under its serial number; jobs stand in `pending` and in the running batch in the order in which they joined the queue, untried ones in the order of acceptance; and each is due exactly after its delay, or the backoff after its failure |
| JobQueue.FirstAcceptedRunsFirst | src/services/jobQueue.ts:245-259 | while a batch runs, the untried job whose handler is called was accepted before every untried job of the batch still to come, none of which has been called |
| JobQueue.EnqueueGoesLast | src/services/jobQueue.ts:138-159 | an enqueued job goes behind everything pending, untried and due after its delay |
| JobQueue.RetryGoesLast | src/services/jobQueue.ts:261-281 | a failed job with attempts left goes behind everything then pending, due the backoff later with one more attempt and its error; without, behind the dead letters |
| JobQueue.TickTakesAllDue | src/services/jobQueue.ts:227-256 | a tick that finds the queue idle takes exactly the due jobs: each is dead for want of a handler, has its handler called, or waits for that in the batch |
| JobQueue.SwitchesWork | src/services/jobQueue.ts:161-181 | in every run the queue is running exactly if it was last started and not stopped since, has exactly the handlers registered, and has no timer armed while stopped |
| JobQueue.ArmedIff | src/services/jobQueue.ts:213-221 | a timer is armed exactly by an enqueue, a start or a continuation that finds the queue running with jobs pending, and disarmed exactly by firing or a stop |
| JobQueue.HandledJobsAreExhausted | src/services/jobQueue.ts:246-281 | a job dead-lettered after its kind got a handler was tried exactly max(1, maxAttempts) times |
| JobQueue.WakeUpKeptIff | src/services/jobQueue.ts:213-221 | a step keeps the wake-up (timer armed, or timer tick or its continuation outstanding, whenever running with jobs pending) exactly unless it is the failure, with attempts left, of a handler run by `drain` while no timer is armed and no timer tick outstanding |
| JobQueue.NeverAsleepWithoutDrain | src/services/jobQueue.ts:156-221 | in runs without `drain`, a running queue with pending jobs always has a timer armed or a timer tick outstanding that will arm it |
| JobQueue.DrainCanLoseWakeUp | src/services/jobQueue.ts:195-221 | a concrete run with `drain` ends with the queue running and idle, a job pending, and no timer, tick, continuation or drain outstanding |
| JobQueue.AsleepStays | src/services/jobQueue.ts:156-221 | such a queue invokes no handler and keeps its pending jobs in every continuation without an enqueue, a drain or a stop |
| JobQueue.CompletionsAreBounded | src/services/jobQueue.ts:258-281 | in any interleaving handlers complete at most as often as the attempts left at the start plus those granted by jobs enqueued since |
| JobQueue.RoundsAreBounded | src/services/jobQueue.ts:195-202 | in any interleaving with timers, handlers, starts, stops and other drains, the loops of all drains together go on to at most as many rounds as there were drains about to, plus the attempts left, plus those granted by jobs enqueued since; so every drain ends if nothing is enqueued |
| JobQueue.DrainEndsIff | src/services/jobQueue.ts:195-202 | in any state of any interleaving a drain's loop ends at a round exactly when another tick is running or no pending job is due at that round's clock reading |
| JobQueue.Partitioned | src/services/jobQueue.ts:231-236 | the due/waiting split puts every job on the right side and invents none |
| JobQueue.PartitionKeepsOrder | src/services/jobQueue.ts:234-236 | the split keeps queue order on both sides |
| JobQueue.CountSplit | src/services/jobQueue.ts:234-236 | the split loses and duplicates no job |
| InMemoryJobQueues.InMemoryJobQueue.constructor | src/services/jobQueue.ts:125-136 | a new queue is empty, stopped and unarmed |
| InMemoryJobQueues.InMemoryJobQueue.RegisterHandler | src/services/jobQueue.ts:161-166 | takes the registration step of the state machine |
| InMemoryJobQueues.InMemoryJobQueue.Enqueue | src/services/jobQueue.ts:138-159 | takes the enqueue step: the new job goes last and the timer is armed if needed |
| InMemoryJobQueues.InMemoryJobQueue.Start | src/services/jobQueue.ts:168-172 | takes the start step; idempotent |
| InMemoryJobQueues.InMemoryJobQueue.Stop | src/services/jobQueue.ts:174-181 | takes the stop step: disarms, keeps pending jobs; idempotent |
| InMemoryJobQueues.InMemoryJobQueue.ScheduleIfNeeded | src/services/jobQueue.ts:213-221 | arms exactly when running, unarmed and with jobs pending |
| InMemoryJobQueues.InMemoryJobQueue.FireTimer | src/services/jobQueue.ts:217-219 | takes the timer step up to the first await |
| InMemoryJobQueues.InMemoryJobQueue.AfterTimerTick | src/services/jobQueue.ts:219-219 | takes the re-arming step after a timer tick |
| InMemoryJobQueues.InMemoryJobQueue.ProcessTick | src/services/jobQueue.ts:227-243 | its partition loop and entry guard take the tick step |
| InMemoryJobQueues.InMemoryJobQueue.Resume | src/services/jobQueue.ts:244-287 | its loop dead-letters jobs without a handler up to the next awaited handler or the end of the batch |
| InMemoryJobQueues.InMemoryJobQueue.HandlerSucceeded | src/services/jobQueue.ts:258-260 | takes the success step |
| InMemoryJobQueues.InMemoryJobQueue.HandlerFailed | src/services/jobQueue.ts:261-281 | takes the failure step: retry after the backoff, or dead-letter |
| InMemoryJobQueues.InMemoryJobQueue.Drain | src/services/jobQueue.ts:195-202 | run with nothing beside it (for every interleaving see `JobQueue.RoundsAreBounded`) the method ends whatever the handlers do, keeps the invariant, never adds work, and if no other tick was running leaves no pending job due at its last clock reading |
| InMemoryJobQueues.DrainStep | src/services/jobQueue.ts:195-202 | each step of an undisturbed drain uses up work, starts a handler or ends it |
| WebhookDelivery.OutboundWebhookDispatcher.ProcessDeliveryJob | src/services/outboundWebhookDispatcher.ts:138-181 | the handler records delivered, failed or dead_letter and the attempt number on its own delivery only, and throws exactly when the record is missing or the POST fails |
| WebhookDelivery.SettleMatches | src/services/outboundWebhookDispatcher.ts:161-180 | the handler and the queue agree on which attempt is the last, so the recorded status is the one the job's fate calls for |
| WebhookDelivery.OthersUntouched | src/services/outboundWebhookDispatcher.ts:149-171 | the running handler changes no delivery that another job stands for |
| WebhookDelivery.SystemRunKeeps | src/services/outboundWebhookDispatcher.ts:138-181 | in every interleaving of handler steps with queue steps, each delivery fits its job at every moment of the handler |
| WebhookDelivery.DeliveryMirrorsItsJob | src/services/outboundWebhookDispatcher.ts:138-181 | between ticks a delivery that has been enqueued is queued, failed, delivered or dead_letter exactly as its one job is untried, waiting to retry, finished or dead-lettered, and recorded attempts equal POSTs made |
| WebhookDelivery.UnscheduledIsQueued | src/services/outboundWebhookDispatcher.ts:74-90 | between `createDelivery` and `enqueue` a delivery is queued, has no attempts and no POSTs, and no job stands for it |
| CursorPagination.OrderLaws | src/utils/cursorPagination.ts:173-199 | both sort orders are strict and total, and isAfterCursor is exactly strictly-after in the same order |
| CursorPagination.BeforeMeans | src/utils/cursorPagination.ts:173-182 | before means an earlier time under asc and a later one under desc, and the smaller id among equal times under both |
| CursorPagination.SortSorts | src/utils/cursorPagination.ts:239-241 | sorting rows with distinct keys gives exactly those rows in strict order |
| CursorPagination.StartSplits | src/utils/cursorPagination.ts:245-259 | the start index splits the sorted rows at the cursor, whether or not the cursor row still exists |
| CursorPagination.RestIsEverythingAfter | src/utils/cursorPagination.ts:245-261 | what is left to emit is exactly the rows strictly after the cursor, in order |
| CursorPagination.PageIsNextRows | src/utils/cursorPagination.ts:205-263 | a page is the next `limit` rows; hasMore and nextCursor say exactly whether and where the rest goes on |
| CursorPagination.PageResumesAfterCursor | src/utils/cursorPagination.ts:188-263 | a page after a cursor holds only rows later (asc) or earlier (desc) than it, or of the same time with a greater id; and every such row, unless the page says that there is more |
| CursorPagination.PaginateFailsIff | src/utils/cursorPagination.ts:74-108 | a request fails exactly on a page size outside 1 to 100, or when a cursor is needed and the last row of the page has no id |
| CursorPagination.WalkIsComplete | src/utils/cursorPagination.ts:223-263 | a walk that ends has emitted every key after its start that was present in all requests |
| CursorPagination.TraversalIsExact | src/utils/cursorPagination.ts:223-263 | following nextCursor to the end while rows come and go and page sizes vary emits in strict order, no key twice, only rows seen, and every key present throughout exactly once |
| CursorPagination.TraversalGoesOneWay | src/utils/cursorPagination.ts:173-263 | whatever changes between requests, what a walk emits goes forward in time under asc and back under desc, and by increasing id among equal times under both |
| CursorPagination.StaticWalk | src/utils/cursorPagination.ts:223-263 | an unchanged collection is emitted whole and in order within one request per row |
| AnomalyDetection.DrawRuleIff | src/services/anomalyDetectionService.ts:205-218 | a draw rule fires exactly when the latest event is a draw and at least minCount positions hold draws within the window |
| AnomalyDetection.RuleFiresIff | src/services/anomalyDetectionService.ts:205-330 | each rule by its own settings: a draw rule fires exactly when the latest event is a draw and its window holds at least its number of draws; the repay rule exactly when the latest event is a repay and at least minCycles repays of its window are matched |
| AnomalyDetection.RuleShows | src/services/anomalyDetectionService.ts:205-345 | a draw rule shows exactly the draws of its window in their order, the repay rule as many cycles as repays of its window are matched |
| AnomalyDetection.EvaluatedAreThoseThatFire | src/services/anomalyDetectionService.ts:188-203 | the rules evaluated are exactly those that fire, each once |
| AnomalyDetection.PairsMeans | src/services/anomalyDetectionService.ts:313-316 | a draw and a repay match exactly when the repay comes within the pair window after the draw and the amounts differ by at most the tolerated fraction of a non-zero draw |
| AnomalyDetection.ScanBack | src/services/anomalyDetectionService.ts:311-317 | the inner scan finds the most recent unpaired draw that matches, or none |
| AnomalyDetection.FindCycles | src/services/anomalyDetectionService.ts:294-328 | the pairing loop computes the greedy most-recent-first pairing |
| AnomalyDetection.PairingConserves | src/services/anomalyDetectionService.ts:304-328 | every draw is left unpaired or in exactly one cycle, and no repay is used more often than it occurs |
| AnomalyDetection.CyclesArePairs | src/services/anomalyDetectionService.ts:311-326 | every cycle is a draw and a repay within the pair window and the amount tolerance |
| AnomalyDetection.RepayPairsIff | src/services/anomalyDetectionService.ts:311-328 | a repay adds a cycle exactly when a draw left unpaired by the events before it matches it: with the newest such draw, which is then no longer unpaired |
| AnomalyDetection.UnpairedInOrder | src/services/anomalyDetectionService.ts:304-308 | the draws left unpaired stand in the order of their events |
| AnomalyDetection.SuffixPairsNoMore | src/services/anomalyDetectionService.ts:304-328 | pairing on a suffix leaves unpaired exactly the newest part of what pairing on the whole leaves, and finds no more cycles |
| AnomalyDetection.BufferIsNewest | src/services/anomalyDetectionService.ts:355-374 | the buffer is the newest maxEvents of the events no older than twice the widest window, whatever was trimmed before |
| AnomalyDetection.BufferHoldsIff | src/services/anomalyDetectionService.ts:355-374 | an event is in the buffer exactly if it is no older than twice the widest of the three windows and among the newest maxEvents |
| AnomalyDetection.WindowSeesNewest | src/services/anomalyDetectionService.ts:355-374 | inside any rule's window the buffer shows the newest maxEvents events of the full history |
| AnomalyDetection.VerdictIsExactBelowCap | src/services/anomalyDetectionService.ts:205-330 | while the window holds no more events than the cap, every rule gives the same verdict and evidence on the buffer as on the full history |
| AnomalyDetection.VerdictIsSound | src/services/anomalyDetectionService.ts:355-374 | whatever the cap dropped, a rule fires on the buffer only if it fires on the full history |
| AnomalyDetection.AnomalyDetectionService.PushActivity | src/services/anomalyDetectionService.ts:355-374 | replaces one line's buffer by the trimmed and capped one and changes no other line |
| AnomalyDetection.AnomalyDetectionService.ObserveEvent | src/services/anomalyDetectionService.ts:85-118 | takes the step of `observe` up to its first awaited `create`: push, evaluate, skip the rules that are cooling down |
| AnomalyDetection.AnomalyDetectionService.Resume | src/services/anomalyDetectionService.ts:101-118 | its loop stops at the first fired rule that is not cooling down and calls `create` for it, or ends the observation |
| AnomalyDetection.AnomalyDetectionService.CreateResolved | src/services/anomalyDetectionService.ts:118-124 | takes the step after `create` resolved: the signal is on file, the rule is stamped with the event's time, the loop goes on |
| AnomalyDetection.AnomalyDetectionService.CreateRejected | src/services/anomalyDetectionService.ts:118-118 | takes the step after `create` rejected: nothing is stamped and the remaining rules are skipped |
| AnomalyDetection.ActivityIsBuffer | src/services/anomalyDetectionService.ts:355-374 | after any run each line's buffer is that of its own events only |
| AnomalyDetection.ObservedRulesAreThoseThatFire | src/services/anomalyDetectionService.ts:85-98 | in every interleaving a call of `observe` takes note of exactly the rules that fire on its line's buffer with the new event; a disabled service does nothing |
| AnomalyDetection.SignalsAreJustified | src/services/anomalyDetectionService.ts:85-127 | in every interleaving, every signal persisted or in flight is justified by the full history its line had at the observation that made it |
| AnomalyDetection.NextCheckIsSafeIff | src/services/anomalyDetectionService.ts:376-384 | the next cooldown check of a rule on a line is sure to keep the cooldown from every signal on file and every create in flight, whatever the time of its event, exactly when none of them is newer than the stamp in force |
| AnomalyDetection.TooCloseOnlyIfMissed | src/services/anomalyDetectionService.ts:101-124 | in every interleaving, a check that saw an earlier signal of its rule and line keeps the whole cooldown from it; two signals closer than that mean that the later check missed the earlier: its create was in flight, or its stamp had been overwritten by an older one |
| AnomalyDetection.CooldownHoldsIff | src/services/anomalyDetectionService.ts:101-124 | the cooldown holds of a whole run exactly when it holds of the pairs of signals of which the later check missed the earlier |
| AnomalyDetection.CooldownHolds | src/services/anomalyDetectionService.ts:101-124 | in every run in which no check overlaps a create for its rule and line, stamps never go back and signals of one rule on one line are at least the cooldown apart |
| AnomalyDetection.OverlappingDrawsSignalTwice | src/services/anomalyDetectionService.ts:101-124 | two overlapping observations of draws at any times leave two signals of one rule, and the stamp of the first when the creates resolve out of order |
| AnomalyDetection.OverwrittenStampSignalsEarly | src/services/anomalyDetectionService.ts:119-122 | after a stamp went back, even a check that overlaps nothing passes too early |
| AnomalyDetection.FiredRulesAreSignalled | src/services/anomalyDetectionService.ts:101-124 | in every interleaving, an observation that awaits nothing has dealt with all rules that fired exactly if none of its creates was rejected; each rule dealt with has a signal on file from less than the cooldown ago; of the others it has saved none |
| Decimal.MatchIff | src/services/sorobanClient.ts:24-24 | the decimal grammar spelt out: a string matches, with these whole and fraction digits and sign, exactly if it is an optional sign, digits, and optionally a point and more digits |
| Decimal.TrimIsExact | src/services/reconciliationService.ts:294-294 | trimming cuts off exactly the white space at both ends |
| Decimal.PrintRoundTrips | src/services/sorobanClient.ts:529-555 | the printed form of any value and scale parses back to the same value and scale |
| Decimal.SubtractionIsExact | src/services/sorobanClient.ts:522-555 | the printed difference denotes exactly left minus right and re-parses to it |
| Decimal.ComparisonDenotes | src/services/reconciliationService.ts:293-310 | the comparison form is canonical and denotes the number of the string, and exists exactly when the string denotes one |
| Decimal.CanonicalIsUnique | src/services/reconciliationService.ts:301-309 | canonical forms are equal exactly when the numbers are |
| Decimal.ComparisonIsNumeric | src/services/reconciliationService.ts:282-291 | two strings compare equal exactly when they denote the same number or, if one denotes none, are the same text |
| Decimal.AvailableAgreesIff | src/services/sorobanClient.ts:312-312 | a database figure compares equal to the on-chain available credit exactly when it denotes limit minus utilized |
| OnChainEnumeration.FetchAllCreditRecords | src/services/sorobanClient.ts:109-148 | the paging loop returns the records of the enumeration, or its error, or refuses a repeated borrower, and counts its requests |
| OnChainEnumeration.AssertUniqueBorrowers | src/services/sorobanClient.ts:631-641 | succeeds exactly when no borrower occurs twice |
| OnChainEnumeration.RequestsAreBounded | src/services/sorobanClient.ts:118-144 | whatever the server answers, enumeration ends within 101 page requests |
| OnChainEnumeration.EnumerationIsExact | src/services/sorobanClient.ts:118-144 | against any server the enumeration succeeds with exactly the records of a chain of answered pages: each request resumes after the last cursor, all pages but the last hold at least 100 records and move the cursor forward, the last holds fewer, and there are at most 10,000 in all |
| OnChainEnumeration.ContractIsEnumerated | src/services/sorobanClient.ts:121-147 | against a contract listing increasing ids it collects exactly the listing in order, or refuses one of more than 10,000 records |
| OnChainEnumeration.FetchFromContract | src/services/sorobanClient.ts:109-148 | against such a contract the fetch succeeds exactly when there are at most 10,000 records and no borrower twice, and then returns them all in order |
| Reconciliation.WalletKeyIsCore | src/services/reconciliationService.ts:253-261 | the key of an address is what stands between its surrounding white space; it is blank exactly when nothing does |
| Reconciliation.FindDuplicateWallets | src/services/reconciliationService.ts:263-276 | throws exactly on a blank address, and otherwise returns exactly the keys that two addresses share |
| Reconciliation.Reconcile | src/services/reconciliationService.ts:77-172 | errors are empty exactly when both sides have non-blank, duplicate-free wallets; errors name exactly the repeated wallets; and errors and mismatches are both empty exactly when in addition both sides have the same wallets and every pair agrees |
| Reconciliation.CollectMismatches | src/services/reconciliationService.ts:113-150 | the two passes collect the mismatches of every line and every record |
| Reconciliation.PushDuplicates | src/services/reconciliationService.ts:93-104 | one error per repeated wallet, on the right side |
| Reconciliation.CleanIff | src/services/reconciliationService.ts:113-150 | no mismatch is reported exactly when the wallet sets are equal and every pair agrees on address text, limit value, available value, rate and status |
| Reconciliation.NothingToReport | src/services/reconciliationService.ts:174-250 | a pair is silent exactly when it agrees |
| Reconciliation.FieldsReportedIff | src/services/reconciliationService.ts:203-249 | each field of a pair is reported, with both sides' values in place and its severity, exactly when the sides disagree on it, the address text included |
| Reconciliation.FieldsReportedOnce | src/services/reconciliationService.ts:174-250 | a pair is reported field by field in the order of comparison, no field twice and existence never |
| Reconciliation.ExistenceIsSymmetricDifference | src/services/reconciliationService.ts:118-150 | existence mismatches stand for wallets on one side only, and the wallet-key mismatch branch is never taken |
| Reconciliation.MissingIsReported | src/services/reconciliationService.ts:122-149 | every wallet on one side only is reported |
| Reconciliation.AvailableCreditWarningIff | src/services/reconciliationService.ts:215-225 | the available-credit warning appears exactly when the database figure is not the number on-chain limit minus utilized |
| IdempotencyStore.InMemoryIdempotencyStore.constructor | src/services/idempotencyStore.ts:50-53 | a new store has no records and no tokens |
| IdempotencyStore.InMemoryIdempotencyStore.PruneExpired | src/services/idempotencyStore.ts:128-136 | its loop removes exactly the expired records and their tokens and settles no promise |
| IdempotencyStore.InMemoryIdempotencyStore.Begin | src/services/idempotencyStore.ts:55-92 | prunes, then answers conflict, replay or pending from the live record, or starts a new attempt |
| IdempotencyStore.InMemoryIdempotencyStore.Complete | src/services/idempotencyStore.ts:94-109 | completes and resolves only a live pending attempt |
| IdempotencyStore.InMemoryIdempotencyStore.Fail | src/services/idempotencyStore.ts:111-122 | forgets the token's record and rejects a pending promise |
| IdempotencyStore.RunKeeps | src/services/idempotencyStore.ts:55-136 | every run keeps the token and record maps inverse to each other, promises in step with records, and every record explained by the history |
| IdempotencyStore.StoreIsItsLog | src/services/idempotencyStore.ts:55-136 | the two maps are a cache of the log: in every run the history is what a log alone, without any map, holds after the same calls, where a begin prunes exactly the overdue attempts and starts one exactly if the key has none, a complete counts on a live attempt not completed before, and a fail on any live attempt |
| IdempotencyStore.AttemptsAreExclusive | src/services/idempotencyStore.ts:55-136 | in every run the two maps are in bijection, and between two `started` results for one cache key the first token was failed or its record expired |
| IdempotencyStore.StaleTokensAreHarmless | src/services/idempotencyStore.ts:94-122 | completing or failing with one token never touches a record another token owns |
| IdempotencyStore.ReplayIsFaithful | src/services/idempotencyStore.ts:60-67 | a replay returns the response of the one effective completion of the attempt begun with the same key and request hash |
| IdempotencyStore.StartsIff | src/services/idempotencyStore.ts:55-92 | in every run `begin` starts an attempt exactly when every attempt ever begun for the key was given up, was pruned, or has outlived the time to live since its last stamp |
| IdempotencyStore.LiveAttemptsAnswer | src/services/idempotencyStore.ts:58-70 | in every run, while an attempt for the key is live, `begin` conflicts exactly for another request hash, replays exactly the response the attempt was completed with, and waits exactly if it was not completed |
| IdempotencyStore.ReplaysIff | src/services/idempotencyStore.ts:60-67 | in every run, after a completion the same request is answered from that attempt with its response exactly when the token has not been failed or pruned since and the sweep comes before the time to live has passed since the completion |
| IdempotencyStore.ExpiryHonoursTtl | src/services/idempotencyStore.ts:94-136 | in every run an attempt is pruned only once the time to live has passed since its latest stamp, and a completion is the latest stamp of its attempt |
| IdempotencyStore.ForgottenAfterFail | src/services/idempotencyStore.ts:111-122 | a concrete run in which a completed response well within its time to live is not replayed after a `fail` of its token |
| IdempotencyStore.DeadPromisesStay | src/services/idempotencyStore.ts:94-136 | the promise of a token that is no longer live never changes |
| IdempotencyStore.PromisesAreSettledIff | src/services/idempotencyStore.ts:94-122 | in every run the promise of every token handed out is resolved exactly with the response of its completion, rejected exactly if given up and never completed, and unsettled exactly if neither |
| IdempotencyStore.WaitersHangIff | src/services/idempotencyStore.ts:128-136 | in every run the waiters of a token that is no longer live are unanswered exactly when its record expired while pending, and stay so in every continuation |
| IdempotencyStore.LeftWaiting | src/services/idempotencyStore.ts:69-69 | a concrete run that leaves a waiting request without an answer |
| IdempotencyStore.SettledPromisesStay | src/services/idempotencyStore.ts:94-122 | a settled promise stays as it is in every continuation |
| IdempotencyStore.CacheKeyIsInjective | src/services/idempotencyStore.ts:124-126 | with colon-free hashes the cache key determines key hash, scope and principal hash, although the scope contains a colon |
| CanonicalText.QuoteIsReadBack | src/middleware/idempotency.ts:193-193 | quoted strings, with escapes, surrogate pairs and lone surrogates, are self-delimiting and injective |
| CanonicalText.SortOrders | src/middleware/idempotency.ts:201-203 | members are put in strict code-unit order of their keys |
| CanonicalText.LessIff | src/middleware/idempotency.ts:202-202 | the order of keys is that of the first differing code unit, a prefix coming first |
| CanonicalText.SameRequestSameText | src/middleware/idempotency.ts:191-205 | values equal up to member order have the same text |
| CanonicalText.SameTextSameRequest | src/middleware/idempotency.ts:191-205 | equal texts, even with different continuations, come from values equal up to member order |
| CanonicalText.CanonicalTextIsExact | src/middleware/idempotency.ts:191-205 | two request values get the same canonical text exactly when they are equal up to the order of object members at every depth |
| CanonicalText.PlainStringsStand | src/middleware/idempotency.ts:193-193 | strings without quotes, backslashes, control characters and surrogates stand for themselves between quotes |
| CanonicalText.TextOfTwoItems | src/middleware/idempotency.ts:196-198 | items stand in their own order between brackets, separated by commas; null, true and false are written out |
| CanonicalText.TextOfTwoMembers | src/middleware/idempotency.ts:200-204 | members stand in the order of their keys between braces, each key quoted and followed by a colon, whichever comes first in the object |
| CreditLedger.CreditLineService.Draw | src/services/CreditLineService.ts:207-272 | refuses in the source's order, or adds the amount to the balance, keeps available credit in step and appends the ledger row |
| CreditLedger.CreditLineService.RepayLine | src/services/CreditLineService.ts:286-326 | refuses, or lowers the balance with a floor at zero and appends the ledger row |
| CreditLedger.DrawIsAcceptedIff | src/services/CreditLineService.ts:207-272 | after any calls, a draw is refused with the first reason that applies and changes nothing exactly when the line is unknown, of another wallet, not active, the amount absent or not positive, or past the limit; any other draw raises the balance by exactly the amount and books exactly that borrow, changing no other line |
| CreditLedger.RepayIsAcceptedIff | src/services/CreditLineService.ts:286-326 | after any calls, a repay is refused exactly when the line is unknown or the amount absent or not positive; any other lowers the balance by the amount, not below zero, and books exactly that repay |
| CreditLedger.OthersKeepTheirLines | src/services/CreditLineService.ts:207-326 | a line keeps its wallet and limit, and no call on another line changes it |
| CreditLedger.SteppedIsReflected | src/services/CreditLineService.ts:297-298 | the balance floored at every repay is the plain sum minus its lowest value so far |
| CreditLedger.NoOverpaymentIff | src/services/CreditLineService.ts:297-298 | no repay exceeds the balance it meets exactly when the running sum never falls below zero |
| CreditLedger.LedgerNeverExceedsStepped | src/repositories/postgres/PostgresCreditLineRepository.ts:379-404 | the sum floored once never exceeds the balance floored at each repay; they are equal exactly when no repay exceeded the balance or the sum ends at its lowest point |
| CreditLedger.LedgerUtilizedIs | src/repositories/postgres/PostgresCreditLineRepository.ts:402-409 | what the repository reports as utilized is the floored sum capped at the limit, and with available credit adds up to the limit |
| CreditLedger.BalancesAreSound | src/services/CreditLineService.ts:223-242 | after any sequence of calls every balance is within zero and the limit, equals the stepped value of its own ledger rows, and bounds the ledger figure from above, with the exact condition of equality |
| CreditLedger.LedgerAcceptsNoLess | src/repositories/postgres/PostgresCreditLineRepository.ts:379-404 | with the ledger as the balance a draw is accepted whenever the stepped balance would accept it |
| CreditLedger.LedgerLendsMoreIff | src/repositories/postgres/PostgresCreditLineRepository.ts:379-404 | some draw is accepted on the ledger figure and refused on the stepped balance exactly when a repay exceeded the balance and the sum has since risen above its lowest point |
| CreditLedger.OverpaymentRaisesTheLedgerLimit | src/repositories/postgres/PostgresCreditLineRepository.ts:402-402 | a concrete history for which that is so, and an overpayment alone for which it is not |
| CreditLedger.LedgerBalancesAreSound | src/repositories/postgres/PostgresCreditLineRepository.ts:379-409 | over the Postgres repository, after any sequence of calls, every line's ledger sum is within its limit, what is read back is that sum floored at zero, and the stepped balance exceeds the limit by no more than has been overpaid |
| CreditLedger.PostgresBooksIff | src/repositories/postgres/PostgresCreditLineRepository.ts:379-404 | over the Postgres repository a draw books exactly its borrow if wallet, status and amount are right and the floored ledger sum has room for it, and otherwise nothing; a repay likewise |
| CsvExport.WriteLine | src/utils/exportStream.ts:54-56 | one line is the row's column texts, missing values as empty, escaped and joined |
| CsvExport.StreamCsv | src/utils/exportStream.ts:43-59 | the writer's loop writes the text of the header and all rows |
| CsvExport.FieldIsReadBack | src/utils/exportStream.ts:25-37 | an escaped field followed by a separator is read back as its text |
| CsvExport.TableIsReadBack | src/utils/exportStream.ts:53-57 | a reader following RFC 4180 recovers every table of non-empty records |
| CsvExport.ExportIsReadBack | src/utils/exportStream.ts:43-59 | for any positive column count the reader recovers the header and every field text from the writer's output |
| CsvExport.CellsAreReadBack | src/utils/exportStream.ts:53-57 | cell by cell: the header read back names the columns, and field k of record r + 1 is the text row r gives to column k, or empty where it gives none |
| CsvExport.QuotedIff | src/utils/exportStream.ts:33-36 | a field is quoted only if it holds a quote, a comma or a line end |
| CsvExport.ExportIsUnambiguous | src/utils/exportStream.ts:43-59 | two exports with the same text have the same columns and the same table |
| CsvExport.NoColumnsIsAmbiguous | src/utils/exportStream.ts:53-57 | an export without columns and with any number of rows has the text of exactly one table with columns: one column with an empty name and empty fields |

## Left out

- RateLimitStores.MemoryAgreesIff: stated for whole capacities of at least one, which is what the configuration loader produces; the sufficient half (`MemoryFollows`) needs no such condition; with fractional capacities a stored bucket need not be able to hold exactly the sweeper's capacity, so the condition is sufficient there and not shown necessary.
- InMemoryJobQueues.InMemoryJobQueue.Drain: runs the loop with nothing beside it and handlers that enqueue nothing; that drains end in every interleaving, and when, is stated of the state machine (`RoundsAreBounded`, `DrainEndsIff`).
- TokenBucket.AllowedIff: assumes a non-decreasing clock per key, as do the store comparisons.
- WebhookDelivery.DeliveryMirrorsItsJob: assumes one job per delivery, so `replayDelivery` and repeated scheduling of an event are not modelled, and that store calls succeed.
- AnomalyDetection.VerdictIsSound: assumes non-decreasing timestamps per line; `SignalsAreJustified` inherits that.
- AnomalyDetection.AnomalyDetectionService.CreateRejected: takes a `create` that rejects to have persisted nothing.
- CreditLedger.BalancesAreSound: is about sequential calls with fixed limits; concurrent draws, limit changes and deletion are not modelled.
- CursorPagination.TraversalIsExact: assumes distinct non-empty ids and unchanging keys, as the endpoints provide.
- Timer delays: a timer may fire at any time after it is armed; the tick interval itself is not modelled.
- Floating-point rounding of parsed amounts and of token arithmetic: numbers are exact.
- Base64url and JSON parsing of cursors (including legacy cursors and the lenient restart on a malformed one), SHA-256, HMAC and random tokens: cursors are their keys, tokens are fresh, digests contain no colon.
- Redaction of diagnostics in reconciliation messages, logging, and the reading of database lines in pages.
- The check of the contract id before the first page request, the decoding of contract values (XDR, field names, status names) and RPC retries: a page request has some answer or fails.
- The Postgres idempotency store, `captureResponse` and the HTTP side of the idempotency and rate-limit middlewares.
- `undefined` inside values given to the canonical text: request values come from JSON and have none.
- Horizon polling, SQL-only services, routes, schemas, configuration loaders, the policy engine and risk score formulas: input and output, or logic of one branch.
