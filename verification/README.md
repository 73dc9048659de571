# DuckClaw: delivery, scheduling and text cores, verified

A Dafny model of the parts of DuckClaw whose correctness rests on an invariant rather than on one
function, with proofs that hold for every input or every run.

**The write path.** The gateway and the agents queue commands in Redis; one writer process applies
them to DuckDB vaults.

- `ReliableQueue` is the queue as a state machine: one Redis command is one step, and the consumer,
  the lease reclaimer, startup reclaim, producers and kills interleave freely. `QueueConservation`
  is about where a message can be, `QueueDelivery` about what a kill loses and what is in flight,
  `QueueOrder` about the order in which messages complete, `QueueLeases` about whose the leases are
  and how long they hold, and `QueueIds` about texts being all that matters. `QueueOps` is the same
  code as methods over lists and leases that change in place; each method is shown to be a run of
  the state machine.
- `WriteLedger` is the transaction with its ledger row, and `DbWriter` the message handler with the
  Redis dedup cache in front of it.
- `ExactlyOnce` puts queue and handler together: at-least-once delivery and an idempotent ledger
  give one effect.

**The heartbeat.** `ProactiveScheduler` is the per-chat map of running turns: there is no lock, and
one turn per chat follows from the chain of waits.

**The thermostat loop.** `HomeostasisLoop` is sweep, distance, rule plan and dispatch; `StateDelta`
is the UPDATE at the other end of the queue, and `LoopEffects` joins them from the attempts of the
sweep to the rows. Each stage cuts its list at 200, so convergence takes several cycles.

**Independent cores.** `JsonPrinter` (the native bridge), `FrameDecoder` (serial frames),
`RateLimiter` (gateway), `ContextChunker` and `TelegramSplit` (text), `MarkdownEscapes`,
`ChatHistory`, `ChatTurns`, `HistoryBudget` and `HistoryStore` (the conversation history). `Texts`,
`Sequences` and `Wrappers` hold what they share.

Where the source updates things step by step (queues, the ledger transaction, the heartbeat's
dictionary, buffers, windows, tables) the model is a class or a method with loops, and its
`ensures` ties the new state to a specification function; the theorems are about that function.

`dafny verify dfyconfig.toml` checks everything.

## What the code does that its documentation does not say

These are proved, each with a concrete run or an exact condition.

- `docs/api/DB_WRITER_CONTRACT.md:43-59` promises that a crash loses no message. A kill between
  removing a message and pushing it back does (`QueueDelivery.LossOnlyInWindows`: those two windows
  and nothing else). It also warns that a redelivery may execute twice; within the ledger's
  retention it cannot, because the ledger row is part of the transaction.
- A restart moves the interrupted message behind everything that waits
  (`QueueOrder.RestartKeepsOrderIffAlone`, `QueueOrder.RestartReorders`).
- An empty message is popped and never leased or acknowledged; it stays in `:processing` until a kill
  (`QueueDelivery.EmptyMessageIsStranded`, `QueueOrder.OnlyOwnIffNoEmptyPop`).
- A lease can go before its time: while the reclaimer is about to release an older lease of the same
  text, a delivery leased in between loses its own (`QueueLeases.OlderLeaseTakesTheNew`, in a run:
  `QueueLeases.LeaseIsLost`; otherwise it never does, `QueueLeases.LeaseIsKept`).
- A second command under the task id of a committed one, a missing id counting as the id "unknown",
  can be told "success" without being executed. Where the dedup cache answers it is always told so,
  and is committed if and only if it is the same command for the same vault
  (`DbWriter.OneIdOneSuccess`). Where the ledger answers it is told "success" and not committed if
  and only if it is a different command for the same vault; for another vault it is executed and
  told how that went (`DbWriter.OneIdOneSuccessByLedger`).
- A committed command is reported "failed" exactly when it is a typed one and its dedup key cannot
  be written (`DbWriter.ToldFailedThoughCommitted`).
- A shutdown that cancels a handler still acknowledges the message, which is then in no list. The
  delivery neither commits nor reports anything, unless, and exactly when, the handler had come to
  its transaction and that commits, or finds a typed task completed and "success" is already out
  (`ExactlyOnce.ShutdownDropsMessage`).
- A cache entry can outlive its ledger row, and then the cache decides otherwise than the ledger
  would: exactly when it answers for a command that the ledger would commit
  (`DbWriter.CacheChangesStep`), which happens from one second past the retention on
  (`DbWriter.CacheOutlivesLedger`).
- A failed telemetry sweep is audited as "completed" (`HomeostasisLoop.EveryRunEndsCompleted`), and
  a target of 200 stale tasks or more can never trigger a purge
  (`HomeostasisLoop.StaleTasksConverge`).
- The comment "bounded memory under a spread-out scan" (`services/api-gateway/core/middleware.py:82`)
  does not hold (`RateLimiter.SpreadScanIsUnbounded`). The clean-up runs if and only if a caller
  whose window has run out returns after more than 10,000 callers; until then every caller ever seen
  has an entry (`RateLimiter.ClearedIffReturning`).
- A limit of n requests a minute admits up to 2n - 1 requests in 60 seconds, and up to 3n - 1 when
  the clean-up falls in them; both bounds are reached (`RateLimiter.AtMostThreeLimits`,
  `RateLimiter.TwoLimitsReached`, `RateLimiter.ThreeLimitsReached`).
- "No head and no tail" is documented to mean that one message is enough
  (`services/api-gateway/core/telegram_chunking.py:69`). For a reply that needs more than one it is
  returned exactly when all behind its first part is white space (`TelegramSplit.NoTailThoughCut`).
- At a compaction threshold of 0.575 or less a freshly trimmed history may be due for compaction
  again (`HistoryBudget.SafeIsExact`).
- Normalizing an assistant message that is not cut twice is the same as once exactly when no run of
  16 or more backslashes precedes a reserved character and no other run is longer than 16; for one
  that is cut, exactly when this holds of the runs up to the cut
  (`ChatHistory.NormalizeTwiceByInput`; `ChatHistory.FourLayersAreNotAll` is the smallest kind of
  exception).
- Two conversations whose quote-doubled ids agree in the first 128 characters share their messages:
  saving one replaces those of the other (`HistoryStore.SaveReplacesSharedRows`).

## Model

| member | source | states |
|---|---|---|
| `QueueConservation.Conservation` | services/db-writer/db_writer_ops.py:118-203 | In every reachable state, under any interleaving of producers, consumer, lease reclaimer, startup reclaim and kills, each pushed copy is in exactly one place: a list, a task's hand, acknowledged, or lost to a kill |
| `QueueConservation.StepPlaces` | services/db-writer/db_writer_ops.py:118-203 | Any single step changes the number of places of a copy by exactly its new pushes |
| `QueueConservation.LRemSplits` | services/db-writer/db_writer_ops.py:161-191 | LREM takes out at most one copy and keeps all others |
| `QueueDelivery.LossOnlyInWindows` | services/db-writer/db_writer_ops.py:127-130 | After a run some pushed message is unacknowledged and in neither list and no task's hand if and only if some kill fell between a remove and the push that follows it (the other window is lines 191-193) |
| `QueueDelivery.SingleInFlightAlways` | services/db-writer/db_writer_ops.py:209-226 | In every run, once startup reclaim has drained, the only message with a text in `:processing` is the consumer's own copy, and it is missing only if the lease reclaimer moved it |
| `QueueDelivery.AckRemovesOwnDelivery` | services/db-writer/db_writer_ops.py:155-164 | In every run an ack removes the very copy that was popped, never another of identical text; it misses exactly when the reclaimer holds that copy or has requeued it |
| `QueueDelivery.EmptyMessageIsStranded` | services/db-writer/db_writer_ops.py:219-221 | An empty message is never leased and never acknowledged in any run, and once popped it stays in `:processing` through every further run without a kill |
| `QueueOrder.OnlyOwnIffNoEmptyPop` | services/db-writer/db_writer_ops.py:209-226 | `:processing` holds at most the consumer's own message throughout a run if and only if the run pops no empty message |
| `QueueOrder.FifoDespiteLockRetries` | services/db-writer/context_injection_handler.py:273-287 | With no kill and no expired lease, messages complete in push order, whatever number of deliveries met a DuckDB lock: completed, current and waiting messages together are the produced ones in order, up to empty ones, and exactly if no empty one was popped |
| `QueueOrder.DrainAppendsAtTheBack` | services/db-writer/db_writer_ops.py:126-132 | Startup reclaim empties `:processing` and puts its messages, in order, behind all waiting ones |
| `QueueOrder.RestartKeepsOrderIffAlone` | services/db-writer/db_writer_ops.py:126-132 | After a kill in the handler the interrupted message is delivered next if and only if no other message with a text waited, whatever empty messages lie stranded |
| `QueueOrder.RestartReorders` | services/db-writer/db_writer_ops.py:217-226 | The smallest run in which "a" is pushed and popped first and "b" completes first |
| `QueueIds.StepIgnoresIds` | services/db-writer/db_writer_ops.py:118-203 | Behaviour depends on message texts only; the copy numbers of the proofs are history |
| `QueueLeases.ClockIsTicks` | services/db-writer/db_writer_ops.py:144-152 | Time passes by the ticks of a run and by nothing else |
| `QueueLeases.LeasesAreCurrent` | services/db-writer/db_writer_ops.py:155-162 | In a run without a kill there is never a lease but that of the message in delivery |
| `QueueLeases.DrainReleases` | services/db-writer/db_writer_ops.py:126-132 | Startup reclaim releases exactly the leases of the messages it moves |
| `QueueLeases.ScanTakesTheDue` | services/db-writer/db_writer_ops.py:183-187 | The reclaimer takes up a scan exactly when it is idle and the scan lists every lease whose time has come, once each, and there is one |
| `QueueLeases.LeaseIsKept` | services/db-writer/db_writer_ops.py:144-152 | In every run a delivery leased for n seconds, at least one, keeps its lease until they have passed, unless the reclaimer was about the same text when it was leased; and a scan lists it if and only if they have passed and the lease is there |
| `QueueLeases.OlderLeaseTakesTheNew` | services/db-writer/db_writer_ops.py:188-193 | That exception: the release of an older lease of the same text takes the new one away |
| `QueueLeases.LeaseIsLost` | services/db-writer/db_writer_ops.py:188-193 | A run without a kill in which a delivery leased for an hour has no lease at once |
| `QueueOps.RedisQueue.ReclaimProcessingOnStartup` | services/db-writer/db_writer_ops.py:118-141 | Moves all of `:processing` behind the source list, counts it, and is a run of the state machine |
| `QueueOps.RedisQueue.PopReliableMessage` | services/db-writer/db_writer_ops.py:167-175 | Takes the rightmost message and is one step of the state machine, also for an empty message |
| `QueueOps.RedisQueue.RegisterProcessingLease` | services/db-writer/db_writer_ops.py:144-152 | The deadline is the time plus the lease time, or plus one second when that is less than one; no other lease changes |
| `QueueOps.RedisQueue.AckProcessingMessage` | services/db-writer/db_writer_ops.py:155-164 | LREM then ZREM, two steps of the state machine; the result is the number removed |
| `QueueOps.RedisQueue.ReclaimExpiredProcessingLeases` | services/db-writer/db_writer_ops.py:178-203 | Exactly the due leases go, and of each due text one copy, if there is one, goes from `:processing` to the source list; nothing else moves |
| `QueueOps.RedisQueue.HandleMessage` | services/db-writer/loop_state_delta_handler.py:175-200 | On a DuckDB lock the message is pushed to the right end and the handler returns |
| `QueueOps.RedisQueue.RunReliableQueueLoop` | services/db-writer/db_writer_ops.py:209-229 | The loop over startup and deliveries is a run, takes one message a turn until the list is empty, and completes, keeps in hand and leaves waiting the same messages in the same order |
| `WriteLedger.WriterProcess.RunCommand` | services/db-writer/main.py:204-286 | One transaction: what is completed, skipped or raised, the new vault, ledger, prune throttle and commit log; a command that does not complete changes no vault, and no other vault changes at all |
| `WriteLedger.WriterProcess.LedgerPrune` | services/db-writer/main.py:163-180 | At most once an hour per vault, and exactly the rows older than the retention go |
| `WriteLedger.Connection.LedgerInsertCompleted` | services/db-writer/main.py:149-160 | Fails on a task id that is present, which makes the second of two commands roll back |
| `WriteLedger.LedgerTheorem` | services/db-writer/main.py:141-286 | Over all deliveries, redeliveries, failures and restarts: each vault is the replay of its committed commands in commit order, completed rows are backed by commits, no task is forgotten within the retention, and two commits of one (vault, task) are more than the retention apart |
| `WriteLedger.CallEffect` | services/db-writer/main.py:204-286 | One call in full, without the functions of the model: it commits exactly when the file opens, the id has no ledger row, the command is not an empty raw_sql and it does not raise; then the log, the tables, every ledger row and the prune throttle behind it, every other vault as before; otherwise nothing changes |
| `WriteLedger.PrunedAfterRestart` | services/db-writer/main.py:164-180 | After a restart the first commit to a file prunes it: a row stays exactly when it is at most the retention old |
| `WriteLedger.AtMostOnceWithinRetention` | services/db-writer/main.py:141-180 | At most one effect per (vault, task id) in a run no longer than the retention, or in any run when pruning is off |
| `WriteLedger.ExecRemembers` | services/db-writer/main.py:167-180 | Pruning never forgets a task younger than the retention |
| `DbWriter.WriterService.ExecuteWriteMessage` | services/db-writer/main.py:333-565 | The handler with all its early returns: what is written, cached and reported |
| `DbWriter.RunIsLedgerRun` | services/db-writer/main.py:432-565 | Every run of the handler is a run of the ledger |
| `DbWriter.HandlerKeepsLedger` | services/db-writer/main.py:333-565 | So the ledger guarantees hold for every run of the handler, with or without the cache |
| `DbWriter.CommittedReport` | services/db-writer/main.py:378-414 | A delivery whose command commits adds one commit and one report: success, or failed for a typed command whose dedup key cannot be written |
| `DbWriter.ToldFailedThoughCommitted` | services/db-writer/main.py:406-414 | A delivery commits and reports a failure in exactly that case |
| `DbWriter.DeliveryTells` | services/db-writer/main.py:396-404 | Every delivery reports once or twice, always under the payload's own task id, or "unknown" without one; the first report is "success" exactly when the cache answers, the ledger has the task, or the command commits and a typed one's dedup key is written; "failed" follows "success" exactly when the ledger had the task and the dedup key cannot be written |
| `DbWriter.DeliveryCommits` | services/db-writer/main.py:333-565 | A delivery, whole or cut short behind its transaction, adds its own command to the log exactly when it passes the checks, the cache does not answer and the command goes through on its vault; otherwise nothing |
| `DbWriter.DeliveryRemembers` | services/db-writer/main.py:396-412 | The dedup cache gains exactly the id of a typed command that commits or is found completed, if its key can be written |
| `DbWriter.KilledIsPart` | services/db-writer/main.py:396-414 | A process that dies behind its transaction leaves the vaults and the log of the full delivery, and of its report and dedup key the one already written |
| `DbWriter.SuccessMeansCommitted` | services/db-writer/main.py:343-414 | When a task id always stands for one command on one vault, every reported success and every dedup key stands for a commit of that command |
| `DbWriter.OneIdOneSuccess` | services/db-writer/main.py:437-440 | That condition is exact: of two typed commands under one id, or both without one, the second is told success, and it is committed if and only if it is the same command on the same vault |
| `DbWriter.OneIdOneSuccessByLedger` | services/db-writer/main.py:252-286 | Where the cache does not answer, the ledger does: a second command under the id, typed or not, is first told success and not committed if and only if it is a different command for the same vault; for another vault it is committed if and only if it does not raise, and told so |
| `DbWriter.CacheRefinesLedger` | services/db-writer/main.py:289-300 | While no row can have aged out and a task id always names one vault, the run with the cache, its keys expiring and its reads failing at any moment, reaches the same vaults, ledgers and log as the run without it |
| `DbWriter.CacheChangesStep` | services/db-writer/main.py:345-352 | From equal vaults a delivery has the same effect with and without the cache unless the cache answers for a command that the ledger would commit |
| `DbWriter.CacheOutlivesLedger` | services/db-writer/main.py:396-406 | The bound on the refinement cannot be moved: for every retention a run one second longer commits a task once with the cache and twice without it |
| `ExactlyOnce.ExactlyOnceEffect` | services/db-writer/db_writer_ops.py:209-226 | The whole path, when each task id stands for one command on one vault: every pushed copy is queued, in a hand, lost in a window or had its delivery; the reports are those of the deliveries in order, each under its own payload, at least one for each delivery handled to its end; every reported success is committed; vaults are the replay of the log, in which no (vault, task) repeats within the retention |
| `ExactlyOnce.StepAcked` | services/db-writer/db_writer_ops.py:223-226 | What is acknowledged has had a delivery that ended otherwise than with the process |
| `ExactlyOnce.StepTells` | services/db-writer/main.py:417-429 | Only deliveries report: one handled to its end once or twice, one cut short at most once, under its own payload |
| `ExactlyOnce.EventCommits` | services/db-writer/db_writer_ops.py:209-226 | The commit log grows in the handler only, exactly when the delivery there gets to its transaction and commits |
| `ExactlyOnce.ShutdownDropsMessage` | services/db-writer/db_writer_ops.py:223-226 | A shutdown that cancels the handler acknowledges the message and no list holds it; it has committed and told nothing, except exactly when the transaction was reached and commits, or finds a typed task completed after its success is out |
| `ProactiveScheduler.OneTurnPerChat` | services/heartbeat/main.py:301-341 | Over every interleaving no two turns of a chat are past their wait together |
| `ProactiveScheduler.BusyIsExact` | services/heartbeat/main.py:309-311 | "Not busy" and "has no unfinished turn" are the same |
| `ProactiveScheduler.TurnsStartInSpawnOrder` | services/heartbeat/main.py:314-341 | Turns of a chat start in spawn order, each after the earlier one ended |
| `ProactiveScheduler.StepInv` | services/heartbeat/main.py:776-798 | The chain invariant: the unfinished tasks of a chat wait for one another and the last one is the map entry; also across the await between a caller's check and its spawn, and when the awaited write fails and nothing is spawned (the other callers are at lines 980-987, 1149-1151 and 1260-1262) |
| `ProactiveScheduler.StepSpawns` | services/heartbeat/main.py:314-341 | A spawn adds exactly one task, not begun, of that chat and leaves all others; a queued one waits for the last unfinished task of its chat if there is one, any other need not wait |
| `ProactiveScheduler.TasksAreSpawns` | services/heartbeat/main.py:314-341 | Over every run there are as many tasks as spawns that found the poller ready: no turn is dropped |
| `ProactiveScheduler.StepMoves` | services/heartbeat/main.py:323-329 | A task that begins runs at once exactly when no unfinished one of its chat stands before it, otherwise it waits, wakes exactly then, and ends |
| `ProactiveScheduler.CheckFinds` | services/heartbeat/main.py:776-798 | A check passes exactly when the chat has no unfinished turn |
| `ProactiveScheduler.MapHoldsTheBusy` | services/heartbeat/main.py:337-341 | In every run, once the callbacks have run, the map holds exactly the chats with an unfinished turn |
| `ProactiveScheduler.FirstCanProceed` | services/heartbeat/main.py:323-329 | No turn is stuck: the first unfinished task of a chat can always take its next step |
| `ProactiveScheduler.SecondPollerOverlaps` | services/heartbeat/main.py:776-798 | One poller is needed: with a spawn by another between check and spawn, two turns run at once |
| `ProactiveScheduler.Heartbeat.ProactiveBusy` | services/heartbeat/main.py:309-311 | Answers exactly whether the chat has an unfinished turn |
| `ProactiveScheduler.Heartbeat.SpawnProactive` | services/heartbeat/main.py:314-341 | Adds one task and the map entry; the task waits for the last unfinished one of its chat exactly when it is queued and there is one; the invariant stays |
| `ProactiveScheduler.Heartbeat.ResumeTask` | services/heartbeat/main.py:323-327 | A task starts its turn only when its predecessor is done, else it waits |
| `ProactiveScheduler.Heartbeat.FinishTask` | services/heartbeat/main.py:326-329 | A turn ends, with or without an exception, and its callback is due; the invariant holds |
| `ProactiveScheduler.Heartbeat.DoneCallback` | services/heartbeat/main.py:337-341 | Removes the map entry only if it is still this task's |
| `HomeostasisLoop.StaleTasks` | harness_core/skills/fetch_system_telemetry.py:125-166 | Appends the stripped non-blank ids of all readable sources and counts all their rows |
| `HomeostasisLoop.FetchSystemTelemetry` | harness_core/skills/fetch_system_telemetry.py:198-251 | The retry loop: lock errors are counted, the lists keep what failed attempts appended, any other error ends the sweep |
| `HomeostasisLoop.PlanRules` | harness_core/graphs/loop_graph.py:34-94 | The actions of the rules in rule order, none unwanted |
| `HomeostasisLoop.PlanIsWanted` | harness_core/graphs/loop_graph.py:34-94 | An action kind is planned if and only if its rule asks for it; noop exactly when no rule does |
| `HomeostasisLoop.NormalizeAll` | harness_core/policies/corrective_allowlist.py:29-46 | Normalization fixes the approval flag of each action by its kind, and fails if and only if an action type is outside the allowlist |
| `HomeostasisLoop.DispatchActions` | harness_core/graphs/loop_graph.py:195-267 | What is pushed, as in EmittedRight, and for every action its audit entry: an unlisted kind is a noop, and only a purge or quarantine with ids and no queue is not executed |
| `HomeostasisLoop.EveryRunEndsCompleted` | harness_core/graphs/loop_graph.py:138-192 | Every run ends "completed", also after a failed sweep, which purges nothing |
| `HomeostasisLoop.FetchBatches` | harness_core/skills/fetch_system_telemetry.py:221-248 | Whatever attempts failed, the ids start with a full batch and name only stale rows, and the count is min(200, n) |
| `HomeostasisLoop.CappedHits` | harness_core/skills/emit_correction_delta.py:99-120 | The first 200 ids, duplicates included, hit exactly min(200, n) stale rows |
| `HomeostasisLoop.CycleCount` | harness_core/graphs/loop_graph.py:245-254 | One sweep-plan-dispatch-apply cycle removes min(200, n) stale rows when the capped count exceeds the target, and none otherwise |
| `HomeostasisLoop.StaleTasksConverge` | services/db-writer/loop_state_delta_handler.py:26-46 | After ceil(n/200) or more cycles the stale rows are within the target if and only if the target is below 200 or was met from the start |
| `HomeostasisLoop.EmittedRight` | harness_core/skills/emit_correction_delta.py:99-138 | Of any plan exactly a purge of the first 200 stale ids and a quarantine of the first 200 memory ids is pushed, each if and only if it is planned, has an id and the queue is up |
| `LoopEffects.SweepIs` | harness_core/skills/fetch_system_telemetry.py:198-251 | A sweep that gets through behind k lock errors reports its own error rate, latency, fragmentation and row count, k locks, and the ids of all attempts in order |
| `LoopEffects.SweepFails` | harness_core/skills/fetch_system_telemetry.py:221-251 | It fails exactly when no attempt gets through or a broken one comes first |
| `LoopEffects.PlansWhatIsCalledFor` | harness_core/graphs/loop_graph.py:34-94 | Each kind of action is planned exactly when its metric is above its target, the error rate also above 50 |
| `LoopEffects.RunEffects` | harness_core/graphs/loop_graph.py:97-267 | One run from the sweep to the rows: exactly the tasks among the first 200 stale ids are cancelled if more are stale than the target, exactly the memories among the first 200 are quarantined if fragmentation is above its target, and nothing when the queue is down |
| `LoopEffects.NoDistanceNoEffect` | harness_core/graphs/loop_graph.py:97-192 | A run without a sweep or a distance changes no row |
| `StateDelta.VaultTables.ApplyDelta` | services/db-writer/loop_state_delta_handler.py:26-56 | One UPDATE per id: the rows named by the first 200 ids, or by the first ones done when stopped, have the new status, all else is as before |
| `StateDelta.ReplayIsUnion` | services/db-writer/loop_state_delta_handler.py:26-56 | After any history the tables depend only on which ids were reached |
| `StateDelta.DeltasAreConfluent` | services/db-writer/loop_state_delta_handler.py:26-56 | Any two deliveries of the same deltas, reordered, duplicated or interrupted and redelivered, leave the same statuses: those of the union of the truncated id lists |
| `JsonPrinter.JsonEscape` | packages/core/src/duckclaw.cpp:11-33 | Escapes byte by byte as the specification function does |
| `JsonPrinter.Query` | packages/core/src/duckclaw.cpp:43-68 | The printing loops produce the printed form of the table |
| `JsonPrinter.EscapesAre` | packages/core/src/duckclaw.cpp:11-33 | Each of the 256 bytes as it is printed, in the characters of RFC 8259, section 7 |
| `JsonPrinter.FieldIs` | packages/core/src/duckclaw.cpp:55-62 | Name and cell stand between quotes with a colon between |
| `JsonPrinter.BracketsAre` | packages/core/src/duckclaw.cpp:43-68 | Objects stand in braces, the rows in brackets |
| `JsonPrinter.ReadPrintedChars` | packages/core/src/duckclaw.cpp:11-33 | Reading an escaped string gives the string and leaves what follows its closing quote |
| `JsonPrinter.PrintParseRoundTrip` | packages/core/src/duckclaw.cpp:43-68 | For every table of byte strings, parsing the printed text by RFC 8259 gives back exactly the column names and cells |
| `JsonPrinter.PrinterIsInjective` | packages/core/src/duckclaw.cpp:43-68 | Tables that print alike have the same rows, and the same columns once there is a row |
| `FrameDecoder.ReadSensorFrame` | integrations/edge-devices/native/edge_core.cpp:39-81 | For every cut of the stream into reads: verdict, output and unread bytes are those of the pure decoder; a timed-out read only ever turns the verdict into -1; the output is untouched unless the frame is good |
| `FrameDecoder.JudgeBuffer` | integrations/edge-devices/native/edge_core.cpp:65-80 | The XOR loop and the field copies give the verdict and the struct of the pure decoder for the 50 bytes read |
| `FrameDecoder.FrameLayout` | integrations/edge-devices/native/edge_core.cpp:52-80 | Verdict, struct and unread bytes in the positions and values of the wire |
| `FrameDecoder.WaitForSync` | integrations/edge-devices/native/edge_core.cpp:52-56 | Stops right behind the first 0xAA |
| `FrameDecoder.AcceptedIff` | integrations/edge-devices/native/edge_core.cpp:65-69 | A frame is accepted if and only if it ends in 0xFF and payload and checksum XOR to zero |
| `FrameDecoder.OneChangedByteIsRejected` | integrations/edge-devices/native/edge_core.cpp:65-69 | Any change to one payload or checksum byte of a good frame is a checksum error |
| `FrameDecoder.EncodedFramesDecode` | integrations/edge-devices/src/duckclaw_edge_devices/protocol.py:52-72 | Every encoded frame is accepted behind any noise without a sync byte, and its floats come back; its id comes back if and only if its last byte is zero |
| `RateLimiter.Middleware.RequestLimits` | services/api-gateway/core/middleware.py:63-87 | Which requests are refused for size or rate and what the dictionary becomes; a rejected request never moves its window |
| `RateLimiter.AtMostTwoLimits` | services/api-gateway/core/middleware.py:77-87 | Any half-open 60 s interval admits at most 2·limit - 1 requests of an IP, whatever others do, while the dictionary is not cleared |
| `RateLimiter.TwoLimitsReached` | services/api-gateway/core/middleware.py:77-87 | That bound is reached for every limit |
| `RateLimiter.AtMostThreeLimits` | services/api-gateway/core/middleware.py:77-87 | In every run any 60 s interval admits at most 2·limit - 1 requests of an IP, and at most 3·limit - 1 when another caller empties the dictionary in it |
| `RateLimiter.ThreeLimitsReached` | services/api-gateway/core/middleware.py:77-87 | That bound too is reached for every limit |
| `RateLimiter.YoungIsNotCleared` | services/api-gateway/core/middleware.py:80-83 | Within 60 s of a clean-up there is no second one |
| `RateLimiter.AtMostLimitPerWindow` | services/api-gateway/core/middleware.py:78-86 | The 60 s from the start of a window admit at most the limit |
| `RateLimiter.FewCallersNeverClear` | services/api-gateway/core/middleware.py:82-83 | With at most 10,000 callers the dictionary is never cleared |
| `RateLimiter.ClearedIffReturning` | services/api-gateway/core/middleware.py:80-83 | A run ever empties the dictionary if and only if some caller whose window has run out returns after more than 10,000 callers; until then the dictionary has one entry for each caller |
| `RateLimiter.SpreadScanIsUnbounded` | services/api-gateway/core/middleware.py:82-83 | Callers that come once each are never cleaned up, however many |
| `ContextChunker.ChunkContextRawText` | services/db-writer/context_injection_handler.py:37-67 | For every text and positive maximum: chunks are non-empty and within it, and together hold the non-white-space characters of the input in order; a text that fits is one chunk and so is each paragraph that fits |
| `ContextChunker.ParagraphsKeepInk` | services/db-writer/context_injection_handler.py:44 | The split at blank lines drops white space only |
| `ContextChunker.ParagraphsAreUnbroken` | services/db-writer/context_injection_handler.py:44 | No paragraph has a blank line left in it |
| `ContextChunker.PackLine` | services/db-writer/context_injection_handler.py:52-64 | One line: the buffer stays within the maximum, nothing is lost, and a line that fits is packed |
| `ContextChunker.ChunkParagraph` | services/db-writer/context_injection_handler.py:48-66 | A long paragraph whose lines all fit is cut at line ends only: each chunk holds whole lines and ends where the next one would not fit |
| `ContextChunker.CutBuffer` | services/db-writer/context_injection_handler.py:60-62 | The hard cut: pieces of exactly the maximum length and a last one within it that concatenate to the line |
| `TelegramSplit.ChunkSize` | services/api-gateway/core/telegram_chunking.py:13-21 | The setting, raised to 256 or lowered to 3896, and 2000 without one |
| `TelegramSplit.SplitPlainTextForTelegramReply` | services/api-gateway/core/telegram_chunking.py:24-45 | The index loop yields the coarse split, sizes under 64 being raised |
| `TelegramSplit.CoarseLossless` | services/api-gateway/core/telegram_chunking.py:24-45 | The parts concatenate to the text, are within the size, and are not empty |
| `TelegramSplit.CoarseCutsAtNewlines` | services/api-gateway/core/telegram_chunking.py:38-44 | Every part ends behind the last newline of its window, or at the window's end when there is none past its first character |
| `TelegramSplit.CoarseIsTheRightCut` | services/api-gateway/core/telegram_chunking.py:24-45 | No other list of parts does that |
| `TelegramSplit.SubChunksFit` | services/api-gateway/core/telegram_chunking.py:48-60 | The recursive halving is lossless, leaves only parts that fit or single characters, and cuts a text only when it is too long |
| `TelegramSplit.CutInTheMiddle` | services/api-gateway/core/telegram_chunking.py:56-60 | A text that is too long once escaped is cut in the middle and each half again |
| `TelegramSplit.PartsAreNotCrumbs` | services/api-gateway/core/telegram_chunking.py:57-60 | When escaping grows a text at most k-fold, no part of a cut text is shorter than CAP/2k - 1 characters |
| `TelegramSplit.MessagesFit` | services/api-gateway/core/telegram_chunking.py:71-79 | Both splits together are lossless, and every message renders within the cap if single characters do |
| `TelegramSplit.GatewayMultipartPlainHeadTail` | services/api-gateway/core/telegram_chunking.py:63-85 | The first message and the others joined by blank lines, or nothing when the others are all blank |
| `TelegramSplit.SplitTelegramMultipart` | services/api-gateway/core/chat_invoke_finalize.py:515-536 | The second implementation gives the same head and tail, and the number of parts |
| `TelegramSplit.BothSplitsAgree` | services/api-gateway/core/chat_invoke_finalize.py:515-536 | The two implementations agree on every reply |
| `TelegramSplit.HeadAndTailKeepInk` | services/api-gateway/core/telegram_chunking.py:82-85 | Head and tail together hold the reply, white space aside; the head is a prefix of it |
| `TelegramSplit.NoTailMeansOnePart` | services/api-gateway/core/telegram_chunking.py:68-69 | For a reply that does not end in white space, no tail means exactly that it is one message |
| `TelegramSplit.MoreThanOne` | services/api-gateway/core/telegram_chunking.py:71-80 | A reply is cut if and only if it is longer than a chunk, or too long once escaped and more than one character |
| `TelegramSplit.NoTailThoughCut` | services/api-gateway/core/telegram_chunking.py:82-84 | A reply that is cut gets no tail if and only if everything behind its first part is white space |
| `TelegramSplit.TrailingSpaceHidesTheSplit` | services/api-gateway/core/telegram_chunking.py:82-84 | A reply of one character and any amount of white space gets no tail, although it needs more than one message from one chunk on |
| `MarkdownEscapes.UnescapeLayers` | packages/shared/src/duckclaw/utils/telegram_markdown_v2.py:280-309 | Takes off up to the given number of layers, stopping when nothing changes |
| `MarkdownEscapes.LayersUndoEscapes` | packages/shared/src/duckclaw/utils/telegram_markdown_v2.py:258-309 | A text without escapes, escaped up to that many times, comes back |
| `ChatHistory.NormalizeIsNormal` | services/api-gateway/core/chat_history.py:43-70 | A kept message has a known role, no outer white space, and no blank stamp |
| `ChatHistory.NormalizedIs` | services/api-gateway/core/chat_history.py:43-70 | Exactly which messages are kept, and role, text and stamp of what is kept |
| `ChatHistory.NormalizeTwice` | services/api-gateway/core/chat_history.py:43-70 | Normalizing again changes nothing if and only if the message is a user's or no escape is left in it |
| `MarkdownEscapes.LayersLeaveClean` | packages/shared/src/duckclaw/utils/telegram_markdown_v2.py:295-309 | n layers leave no escape if and only if every run of backslashes before a reserved character is shorter than 2^n and every other run at most that long |
| `ChatHistory.NormalizeTwiceByInput` | services/api-gateway/core/chat_history.py:58-65 | The same on the input: an assistant text that is not cut is stable if and only if its runs are within 16 in that sense, a cut one if and only if those up to the cut are |
| `ChatHistory.FourLayersAreNotAll` | services/api-gateway/core/chat_history.py:58-62 | An assistant message that a second normalization changes |
| `ChatHistory.NormalizeHistoryList` | services/api-gateway/core/chat_history.py:141-150 | The kept messages in order, of which a positive cap leaves the last ones up to its number and any other cap what Python's slice does |
| `ChatHistory.NormalListStays` | services/api-gateway/core/chat_history.py:141-150 | Normalizing stored messages again drops none |
| `ChatHistory.StampNewHistoryItems` | services/api-gateway/core/chat_history.py:73-86 | Stamps exactly the messages behind the last stamped one, or the last two when none is |
| `ChatHistory.StampTouchesOnlyTheNew` | services/api-gateway/core/chat_history.py:73-86 | Stamping changes no text and no role, and no stamp of a message at or before the last stamped one |
| `ChatHistory.StampReachesTheNew` | services/api-gateway/core/chat_history.py:73-86 | The messages behind the last stamped one, or the last two when none is, do get the time unless they have a stamp |
| `ChatHistory.StampTwice` | services/api-gateway/core/chat_history.py:73-86 | A later save changes no stamp of an earlier one |
| `ChatTurns.PersistTurn` | services/api-gateway/core/chat_history_persist.py:25-45 | The list that is saved after a turn, or none when a side is blank |
| `ChatTurns.TurnIndexMatches` | services/api-gateway/core/chat_history.py:153-168 | The saved list has as many messages as the cap keeps, the announced index is the number of user messages among as many last ones (at least 1), and it is the ordinal of the turn's user message in the saved list for every history and every cap under which that message is saved; otherwise it names no saved message |
| `ChatTurns.TurnIsSaved` | services/api-gateway/core/chat_history_persist.py:36-45 | That message is this turn's, with its text and time |
| `ChatTurns.ReplyIsSaved` | services/api-gateway/core/chat_history_persist.py:36-45 | The last saved message is the reply, stamped with the time of the save |
| `ChatTurns.SavedContents` | services/api-gateway/core/chat_history_persist.py:36-45 | Every saved message is the one of the history with the turn at its place from the end, normalized once more |
| `ChatTurns.SavedUnlessBlank` | services/api-gateway/core/chat_history_persist.py:25-36 | A turn is saved unless message or reply is blank |
| `ChatTurns.TurnEndToEnd` | services/api-gateway/core/chat_history_persist.py:36-45 | Both hold for every message and reply as they come in, unless one side is blank and nothing is saved |
| `HistoryBudget.TrimHistoryToBudget` | services/api-gateway/core/chat_history.py:120-138 | Keeps the longest suffix within the target, or the last message alone, then starts at the first turn of the user, or at the last message |
| `HistoryBudget.TrimIsDeterminate` | services/api-gateway/core/chat_history.py:120-138 | That description admits one result only |
| `HistoryBudget.TrimTwice` | services/api-gateway/core/chat_history.py:120-138 | The result is a non-empty suffix that starts on a turn of the user or is one message, and trimming it again keeps all of it |
| `HistoryBudget.KeepsAllThatFits` | services/api-gateway/core/chat_history.py:120-138 | Every suffix that starts on a turn of the user and fits the target is kept |
| `HistoryBudget.TrimmedEstimate` | services/api-gateway/core/chat_history.py:111-138 | Its estimate exceeds the target by at most 3/4 of a token a message |
| `HistoryBudget.TrimSuffices` | services/api-gateway/core/chat_history.py:116-138 | One trim is enough whenever the threshold leaves room for the rounding and for one message |
| `HistoryBudget.DefaultsConverge` | services/api-gateway/core/chat_history.py:89-138 | With 400 messages of 8001 characters, half the budget and any budget setting, a threshold above 0.575 is safe |
| `HistoryBudget.SafeIsExact` | services/api-gateway/core/chat_history.py:89-138 | At 0.575 and below it is not: a history that survives its trim and is due again |
| `HistoryStore.LiteralRoundTrip` | services/api-gateway/core/admin_conversations_db.py:27-28 | A value survives its SQL literal if and only if its quote-doubled form is within the cap |
| `HistoryStore.ReadBackExact` | services/api-gateway/core/admin_conversations_db.py:27-28 | A value that does not fit is read back shorter or makes the statement an error |
| `HistoryStore.InsertRoundTrip` | services/api-gateway/core/admin_conversations_db.py:571-581 | The value list of an INSERT is read back field by field when all fields fit |
| `HistoryStore.ValidIs` | services/api-gateway/core/admin_conversations_db.py:548-553 | Which messages a save keeps, and their role and text |
| `HistoryStore.MessageStore.DbSaveMessages` | services/api-gateway/core/admin_conversations_db.py:541-593 | One transaction replaces the conversation's rows and its count; without a valid message, with a malformed statement or a taken id nothing changes |
| `HistoryStore.SavesExactlyWhen` | services/api-gateway/core/admin_conversations_db.py:541-593 | A save takes effect exactly when it has a valid message, tenant, conversation and contents leave their literals closed, and the ids are new |
| `HistoryStore.MessageStore.DbLoadMessages` | services/api-gateway/core/admin_conversations_db.py:514-538 | The valid messages of the SELECT's answer, in its order |
| `HistoryStore.StampsCollide` | services/api-gateway/core/admin_conversations_db.py:561-568 | The stamps of a save strictly increase if and only if it has at most 1,000,000 messages |
| `HistoryStore.OrderIsUnique` | services/api-gateway/core/admin_conversations_db.py:521-526 | Rows with strictly increasing stamps have one sorted order, whatever their ids |
| `HistoryStore.AnswerAfterSave` | services/api-gateway/core/admin_conversations_db.py:521-526 | After a save the only possible answer of the SELECT is the inserted rows in order |
| `HistoryStore.LoadAfterSave` | services/api-gateway/core/admin_conversations_db.py:514-593 | For up to a million messages and any drawn ids, loading after saving gives exactly the valid messages in order if and only if every content fits its literal |
| `HistoryStore.SaveKeepsOthers` | services/api-gateway/core/admin_conversations_db.py:557-560 | A save touches no row that is under another key |
| `HistoryStore.SaveReplacesSharedRows` | services/api-gateway/core/admin_conversations_db.py:27-28 | A save changes the rows of another conversation if and only if the two ids, quotes doubled, agree in their first 128 characters |

## Left out

- Redis, DuckDB, asyncio and threads are replaced by atomic steps on lists, maps and transactions; a single Redis command is assumed to succeed unless a step models its failure.
- The writer's `while True` loops run for a given number of turns; blocking on an empty list is not a step.
- The command handlers, payload decoding, path checks and grants are parameters of the handler; an undecodable payload is reported under "unknown", without the guess at its task id.
- SQL that contains its own COMMIT or writes the ledger table itself is outside the transaction model.
- Time to live of dedup and status keys: a dedup key may expire at any moment; statuses are a list, not keys.
- `DbPathLockRegistry`, schema migration and connection retry.
- Other writers of a vault: that each vault is the replay of its committed commands speaks of what the SQL queue writes; the context, loop and report handlers of the same process write other rows of the same files.
- The dead-letter queue, and the loss of a message whose requeue after a lock fails.
- Context-injection inserts and report upserts as idempotent operations (fresh row ids and version counters are not), and the visual and language-model handlers, which repeat the pattern.
- Purge deltas with an invalid source table, the audit upsert, and timestamps written by the UPDATEs.
- `PROACTIVE_TURNS_IN_BACKGROUND = False`, the choice of wall items, intervals and jitter, and the chat state the callers write.
- LLM planning, notifications, the circuit-breaker key, and convergence of the memory index.
- The error-rate and latency queries of the sweep are inputs.
- JSON values other than arrays, objects and strings, UTF-8 validity, and the engine's own text form of a value.
- Serial port setup; `EINTR` is a timed-out read, as in the source; floats are four bytes each.
- How a caller's address is judged public, and numeric parsing of the settings.
- An escape function that raises in the head/tail split: it is a total function here.
- Mention links in the MarkdownV2 escape; lower-casing of roles outside ASCII, which cannot yield a known role.
- ChatHistory.NormalizeTwice: only for a message length cap that is not negative, because a negative one shortens the text on every pass.
- Floats of the token budget are reals, without rounding.
- The inline write path of the history store, whose statements are not one transaction; titles, previews and the Redis copy of the history; the text form of a stamp.
- Escaping and trimming of reply text before it reaches the splitters; the fence-aware splitter of the same package.
