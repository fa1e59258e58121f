# The build engine's queue, outbox, log pipeline and cache, verified

The build engine leases build attempts from a SQLite queue, runs them with a pool of
workers, spools numbered events for the control plane, cuts and redacts container logs,
and keeps one package cache per site. This project models those parts in Dafny and proves
what they keep over every run. Check it with `dafny verify dfyconfig.toml`.

How it is organised:

- `QueueTables`, `QueueSpec`, `OutboxSpec`: the three tables, and what each operation and
  each SQL statement does to them, as functions. A timestamp is a number of milliseconds,
  a canonical UUID is the number it spells (both orders agree).
- `QueueStore`, `EventOutbox`, `Uplink`, `CommandHandlers`, `JobLoop`: the classes and
  loops of the program, updating their fields in place, each method tied to those
  functions. Clock readings, fresh tokens and send results are parameters.
- `AttemptLife`: the only changes that any operation makes to one row, and the counters of
  one row life (from insertion to deletion).
- `WorkerPool`, `PoolInvariant`, `PoolTheorems`: N workers moving one store call at a
  time, interleaved with commands, outbox statements, the clock and process restarts.
  `LeaseKeeping` is about refreshing in time, `AttemptOrder` about the order of enqueueing;
  `PoolShortfalls` is one run.
- `Delivery`, `DeliveryInvariant`, `DeliveryTheorems`, `DeliveryShortfalls`: the publisher
  moving one statement at a time, the websocket, replay, acknowledgement, pruning, restarts.
- `Utf8`, `LogFrames`, `Envelope`, `Redaction`, `LogPump`: the encoding of RFC 3629, log
  splitting, the JSON form of a log event, the redactor, and the pump that joins them.
- `SiteCache`, `CacheRuns`, `CacheShortfalls`: preparing, resetting and pruning site caches,
  and runs of them with containers that mount the cache and wipes that are killed halfway.

## Where the code falls short

Each of these keeps the code as it is and states exactly when the promise holds.

- Replay skips an event whose timestamp has left the five-minute clock window, because
  `replay_after` validates each row again (store.py:606-615, protocol.py:204-207), while
  docs/operations.md:71 promises that unacknowledged events are replayed. An unsent event
  is delivered by an uninterrupted replay if and only if it is inside the window when the
  welcome comes (`ReplayExactly`), and the acknowledgement that follows destroys for good
  exactly the covered events that were outside (`AckAfterReplay`, `StaleEventIsLost`).
- The outbox connection autocommits each statement (store.py:920), so a process that dies
  between the INSERT and the UPDATE of `append` leaves an event ahead of the cursor. A
  publish is refused exactly while the spool holds such an event of its attempt
  (`ConflictExactly`); once it is acknowledged its number is used again (`ReuseExactly`,
  `TornAppendReusesNumber`). Without a torn append the numbers are 1, 2, 3, ... with no reuse
  (`NumbersPartition`).
- The crash requeue clears the cancel flag (store.py:462-478), so a cancelled attempt can
  run again and succeed (`CancelledRunSucceeds`, `CancelledAttemptSucceeds`). It is the only
  step that forgets a request (`CancelForgottenExactly`).
- A draining engine answers an assignment of an unknown attempt with a FAILED status that
  needs a sequence number of a row that does not exist; the frame handler raises instead
  (`HandleAssign`).
- The path of a prepared cache root is mounted only when the container starts, and created
  then if it is gone (docker_runner.py:260-262). A reset, a pruning or another preparation
  in between (job_loop.py:328-369) lets a build write under a lockfile that nothing records,
  and a later build reports HIT on its files (`ResetBeforeStart`). A wipe that is killed
  after the metadata has the same effect (`KilledWipeIsAdopted`). The cache is safe exactly
  when every start and every killed wipe meets a guard that can be checked on the spot
  (`RunSafeExactly`), and a preparation is sound for every history of the files exactly when
  the root has its metadata or its marker, or no files (`PrepareSoundExactly`).
- `transition` to QUEUED or LEASED keeps or omits the lease columns, so it is exactly what
  puts them out of step with the state (`ShapeKeptExactly`); no caller asks for it.
- A replacement can write a secret again: one that is part of `[REDACTED]`, begins with the
  end of it, or runs into its beginning from outside (predicate `Restorable`). For
  a lone secret these are exactly the cases (`LoneSecretExactly`).

## Model

| member | source | states |
|---|---|---|
| QueueSpec.AcquireExactly | src/build_engine/queue/store.py:185-232 | acquire leases the least eligible unflagged row by (created_at, attempt_id), cancels exactly the smaller eligible rows (all flagged), touches no other row; with no such row every eligible row was flagged and is CANCELLED |
| QueueSpec.NextLeaseIsLeast | src/build_engine/queue/store.py:188-197 | the chosen row exists exactly when some eligible row is unflagged, and it is the unique least one |
| QueueSpec.TransitionFollowsLifeCycle | src/build_engine/queue/store.py:822-830 | the whole legal predecessor table: forward in the life cycle, LEASED, RUNNING and SUCCEEDED only from the state just before, QUEUED only from LEASED and RUNNING |
| QueueStore.SQLiteQueueStore.AcquireLease | src/build_engine/queue/store.py:174-232 | the sweep-and-grant loop terminates with the tables and result of the acquire specification |
| QueueStore.SQLiteQueueStore.OldestEligible | src/build_engine/queue/store.py:188-197 | the query returns the least eligible row, flagged or not, and none only when there is none |
| QueueStore.SQLiteQueueStore.Enqueue | src/build_engine/queue/store.py:101-128 | a known attempt is left alone, a new one is QUEUED with exactly the three secret keys stripped, and the caller sees its secrets; another build's attempt is an error |
| QueueStore.SQLiteQueueStore.IsCurrentAttempt | src/build_engine/queue/store.py:151-172 | true exactly when no row of the build was inserted later; unknown pairs are errors |
| QueueStore.SQLiteQueueStore.RefreshLease | src/build_engine/queue/store.py:234-263 | accepted exactly on a held row under matching owner and token, and then the lease ends its timeout from now |
| QueueStore.SQLiteQueueStore.Transition | src/build_engine/queue/store.py:265-347 | every refusal, and each column of an accepted move; a terminal one clears lease and flag |
| QueueStore.SQLiteQueueStore.RequestCancel | src/build_engine/queue/store.py:349-380 | flags exactly the open rows of the build (or the one attempt of that build), leaves every other row alone, and returns the ids |
| QueueStore.SQLiteQueueStore.RecordExecutorCrash | src/build_engine/queue/store.py:391-486 | requeues below three attempts, otherwise fails the row and writes what its dead letter says, once; refused without the lease |
| QueueStore.SQLiteQueueStore.PruneTerminal | src/build_engine/queue/store.py:516-529 | exactly the terminal rows older than the cutoff go, with exactly their events; the others stay unchanged; counts the rows |
| AttemptLife.QueueOpChanges | src/build_engine/queue/store.py:101-529 | every queue operation makes to each row one of the listed changes, or deletes a terminal row, or inserts a fresh one, or (transition to QUEUED or LEASED) changes the state and keeps the lease columns |
| AttemptLife.ShapeKeptExactly | src/build_engine/queue/store.py:277-347 | the lease columns stay in step with the state if and only if the operation is not an effective transition to QUEUED or LEASED |
| AttemptLife.RowInvStep | src/build_engine/queue/store.py:391-486 | each such change keeps lease columns, crash budget, commit count and newest token in step |
| AttemptLife.TerminalAbsorbs | src/build_engine/queue/store.py:822-830 | no change moves a terminal row except in its outbox columns |
| AttemptLife.FlagDropped | src/build_engine/queue/store.py:454-478 | a cancel flag is dropped exactly by a terminal state or the crash requeue, and a flagged row is not leased |
| AttemptLife.LiveLeaseStays | src/build_engine/queue/store.py:188-197 | a row under an unexpired lease keeps token and owner, unless it is finished or requeued |
| PoolInvariant.InvStep | src/build_engine/agent/job_loop.py:129-232 | every step of workers, commands, outbox, clock and restart keeps the pool invariant |
| PoolInvariant.InvReachable | src/build_engine/agent/job_loop.py:129-232 | the invariant holds in every reachable state |
| PoolInvariant.MoveOutcome | src/build_engine/queue/store.py:289-347 | a guarded transition is accepted exactly when state, owner and token are the expected ones; refused, it changes nothing |
| PoolTheorems.Fencing | src/build_engine/queue/store.py:234-347 | over whole runs: once a token has left its row, every later refresh, transition or crash report with it fails and changes nothing |
| PoolTheorems.CommitAuthority | src/build_engine/queue/store.py:174-347 | a terminal commit is the first of its row life, and comes from the holder of the newest token or from acquire on a flagged row |
| PoolTheorems.OneCommit | src/build_engine/queue/store.py:265-347 | a row life has one terminal commit if its row is terminal, else none |
| PoolTheorems.LiveTokenHasItsWorker | src/build_engine/agent/job_loop.py:129-159 | a live token of this process is held by the worker it was issued to, inside its iteration |
| PoolTheorems.IterationEndsDead | src/build_engine/agent/job_loop.py:159-232 | whichever way an iteration stops working, its token is dead afterwards |
| PoolTheorems.ConcurrencyBound | src/build_engine/agent/job_loop.py:86-114 | at most N attempts are leased to a process with N workers, each to a different worker |
| PoolTheorems.CrashBudget | src/build_engine/queue/store.py:424-478 | QUEUED rows have fewer than 3 attempts, at most 2 crash requeues per life, attempts at most 3 plus expiry reclaims |
| PoolTheorems.DeadLetters | src/build_engine/queue/store.py:427-461 | every dead letter had at least 3 attempts, and in that life its row is FAILED for good |
| PoolTheorems.LeaseColumns | src/build_engine/queue/store.py:310-339 | owner, token and expiry are all set in LEASED and RUNNING rows and all NULL elsewhere |
| PoolTheorems.OnlyTheHolderEnds | src/build_engine/queue/store.py:188-197 | before its expiry a lease keeps owner and token through every step but its own holder's release |
| PoolTheorems.Exclusivity | src/build_engine/queue/store.py:188-257 | over runs: a lease that is refreshed in time stays with its holder until the holder gives it up |
| LeaseKeeping.KeptAlive | src/build_engine/agent/job_loop.py:235-249 | over runs: if at every moment the lease was taken, or refreshed by its worker, less than its timeout ago, and nobody releases it, owner and token stay |
| LeaseKeeping.HolderRefreshes | src/build_engine/queue/store.py:248-257 | a refresh by the worker that holds the lease is accepted and moves the expiry to exactly its timeout from now |
| PoolTheorems.LeaseLastsItsTimeout | src/build_engine/queue/store.py:182-232 | over runs: a lease of T seconds is nobody else's for T seconds, refreshed or not, unless its holder ends it |
| PoolTheorems.NothingToLeaseExactly | src/build_engine/queue/store.py:188-203 | nothing can be leased exactly when every open attempt is flagged or under a live lease |
| PoolTheorems.CancelForgottenExactly | src/build_engine/queue/store.py:462-478 | a cancel request on an open attempt is forgotten by a step if and only if it is the crash requeue |
| PoolTheorems.CancelSticks | src/build_engine/queue/store.py:201-212 | over runs without a crash requeue a flagged attempt is never leased again and leaves the flag only for a terminal state |
| PoolTheorems.CancelledAttemptSucceeds | src/build_engine/queue/store.py:462-478 | any flagged running row that crashes within budget can be leased again and SUCCEED |
| PoolShortfalls.CancelledRunSucceeds | src/build_engine/queue/store.py:462-478 | a reachable state of the pool with a flagged running attempt, from which a run leads to its success |
| PoolTheorems.CommitFollowsCheck | src/build_engine/agent/job_loop.py:590-623 | over runs: every accepted SUCCEEDED was checked under the same lease, when the attempt was the newest of its build and not flagged, and its row was RUNNING under that owner and token from the check to the commit |
| JobLoop.EnsureCurrentAttempt | src/build_engine/agent/job_loop.py:590-623 | passes exactly when the attempt is the newest, running, held under owner and token and not flagged; which exception otherwise |
| PoolTheorems.NoSecretOnDisk | src/build_engine/queue/store.py:833-840 | in every reachable state no stored payload, of a row or a dead letter, has one of the keys that hold secrets or expiring URLs |
| PoolTheorems.OneCurrentAttempt | src/build_engine/queue/store.py:151-172 | of the attempts of one build exactly one is current |
| AttemptOrder.Superseded | src/build_engine/queue/store.py:151-172 | over runs: once a newer attempt of its build has been enqueued an attempt is never current again and no worker's freshness check passes for it |
| AttemptOrder.LastInsertedIsCurrent | src/build_engine/queue/store.py:151-172 | over runs: the attempt of a build that was enqueued last is current, so its check asks only for its own row |
| AttemptOrder.FirstComeFirstServed | src/build_engine/queue/store.py:188-197 | over runs: while an attempt waits unflagged no worker is given one that was enqueued later (or at the same moment with a larger id) |
| AttemptOrder.PayloadKept | src/build_engine/queue/store.py:833-840 | over runs: a row stores what was assigned, less exactly the three secret keys, until it is deleted |
| AttemptOrder.LetterTells | src/build_engine/queue/store.py:427-444 | over runs: a dead letter comes from the crash report of the holder, says what row and worker said then, and never changes |
| JobLoop.RunIteration | src/build_engine/agent/job_loop.py:129-232 | an undisturbed iteration leases the next attempt, leaves it in the state and error its outcome calls for, with the lease gone and no other row changed but swept ones, and reports the state it left |
| JobLoop.SettleOutcome | src/build_engine/agent/job_loop.py:159-232 | each exit of the build leaves its state and its error text, column by column, and the worker reports a terminal state exactly when it left one, and that one |
| OutboxSpec.TrimmedFits | src/build_engine/queue/store.py:706-724 | the size loop ends within max_bytes |
| OutboxSpec.TrimmedIsClosedForm | src/build_engine/queue/store.py:706-724 | the loop keeps of the other events the longest suffix that fits, and of the logs the longest suffix that fits beside all of them |
| OutboxSpec.NewestWithinExact | src/build_engine/queue/store.py:706-724 | an event of a class survives exactly when it fits together with all newer ones of the class |
| OutboxSpec.PruneByAge | src/build_engine/queue/store.py:692-705 | in a spool within the limit, pruning deletes exactly the old events of terminal attempts |
| OutboxSpec.AgedAreGone | src/build_engine/queue/store.py:692-705 | in every spool no old event of a terminal attempt is left |
| OutboxSpec.BytesAdd | src/build_engine/queue/store.py:726-730 | the size compared with the limit is the lengths of the stored texts added up |
| OutboxSpec.AppendIsIdempotent | src/build_engine/queue/store.py:635-643 | the same text under its number is repeated silently, another text under it is a conflict, a free number is neither |
| OutboxSpec.CursorCovers | src/build_engine/queue/store.py:660-667 | the cursor covers every appended number and never goes back, and nothing else of the row changes but its time |
| OutboxSpec.ReplaySelects | src/build_engine/queue/store.py:595-620 | exactly the events above their cursor, well formed and within five minutes, sorted by created_at, attempt_id, seq |
| OutboxSpec.AckThenReplay | src/build_engine/queue/store.py:671-690 | replay after an acknowledgement is replay before it with that cursor raised |
| OutboxSpec.PlacedInOrder | src/build_engine/queue/store.py:644-659 | a new event takes its place in (created_at, attempt_id, seq) order and nothing else changes |
| EventOutbox.SQLiteEventOutbox.Append | src/build_engine/queue/store.py:635-669 | insert, cursor update and prune in order, or a silent repeat, or a refusal that changes nothing |
| EventOutbox.SQLiteEventOutbox.Prune | src/build_engine/queue/store.py:692-724 | the loop terminates in the trimmed spool and counts the removed rows |
| EventOutbox.SQLiteEventOutbox.ReplayAfter | src/build_engine/queue/store.py:595-620 | the list of events above the cursors that still decode, in spool order |
| DeliveryInvariant.InvStep | src/build_engine/agent/uplink.py:191-219 | every interleaved statement of publish, send, replay, acknowledge, prune and restart keeps the delivery invariant |
| DeliveryTheorems.NumberStillNext | src/build_engine/agent/uplink.py:201-210 | the number read under the lock is still cursor + 1 at the append |
| DeliveryTheorems.NumbersPartition | src/build_engine/queue/store.py:635-739 | without a torn append the numbers of a row life are 1 to cursor, each in exactly one of spooled, acknowledged, pruned |
| DeliveryTheorems.ReuseExactly | src/build_engine/queue/store.py:644-668 | an append reuses the number of a deleted event if and only if an earlier append of the life was torn |
| DeliveryTheorems.ConflictExactly | src/build_engine/queue/store.py:636-643 | a publish is refused for conflict if and only if the spool holds an event of its attempt ahead of the cursor; every other publish appends |
| DeliveryTheorems.NothingLost | src/build_engine/agent/uplink.py:191-219 | while acknowledgements were honest every appended event is received, spooled or pruned |
| DeliveryTheorems.ReplayExactly | src/build_engine/queue/store.py:595-620 | over runs: a spooled event that nobody has sent is received through an uninterrupted replay from honest cursors if and only if it is at most five minutes old at the welcome |
| DeliveryTheorems.AckAfterReplay | src/build_engine/queue/store.py:685-690 | of those events the next acknowledgement destroys, unreceived, exactly the covered ones outside the window, and they are never received |
| DeliveryTheorems.ReplayDelivers | src/build_engine/agent/uplink.py:255-258 | after one uninterrupted replay from honest cursors everything appended before is received, except pruned events and those outside the clock window |
| DeliveryTheorems.StaleNeverReceived | src/build_engine/queue/store.py:606-615 | an event not sent within five minutes of its timestamp is never received, in any continuation |
| DeliveryTheorems.ReplayOrder | src/build_engine/queue/store.py:671-683 | replay lists each attempt in strictly increasing seq, although it sorts by created_at |
| DeliveryTheorems.RetentionSparesTheYoung | src/build_engine/queue/store.py:516-529 | the delete cascade removes only events older than the cutoff, or a torn one; every remaining event has its row |
| DeliveryTheorems.NewestStatusSurvives | src/build_engine/queue/store.py:692-724 | a non-log event that is last in spool order survives pruning whenever it fits alone |
| DeliveryShortfalls.StaleEventIsLost | src/build_engine/queue/store.py:606-615 | a reachable run with a live backend in which an event is deleted without having been received |
| DeliveryShortfalls.TornAppendReusesNumber | src/build_engine/queue/store.py:644-668 | a reachable run in which two different events of one row life get number 1 |
| Uplink.BuildEngineUplink.PublishAttemptEvent | src/build_engine/agent/uplink.py:191-219 | the event with its number, text and kind, spooled and sent best-effort; a failed append sends nothing, a failed send drops the socket only |
| Uplink.BuildEngineUplink.ReplaySpool | src/build_engine/agent/uplink.py:255-258 | sends a prefix of the replay list, all of it exactly when no send raises; a send that raises drops the socket |
| Uplink.BuildEngineUplink.HandleAssign | src/build_engine/agent/uplink.py:304-315 | what is enqueued, the state that is published and the result, for new, known and other builds' attempts, draining or not |
| Uplink.PublishIsRun | src/build_engine/agent/uplink.py:191-219 | what the method computes at once the delivery machine reaches statement by statement |
| CommandHandlers.SQLiteCommandHandlers.Assign | src/build_engine/queue/handlers.py:28-35 | refuses while the drain marker exists and enqueues otherwise |
| CommandHandlers.SQLiteCommandHandlers.Cancel | src/build_engine/queue/handlers.py:37-48 | flags the open attempts and reports their ids |
| LogFrames.FrameChunks | src/build_engine/executor/stream.py:47-60 | both loops terminate; the chunks concatenate to the text, the encoding of each has at most 65,536 bytes, and no other split with that property has fewer |
| LogFrames.GreedyIsOptimal | src/build_engine/executor/stream.py:47-60 | no split of the text into pieces that fit uses fewer pieces than the greedy one |
| LogFrames.GreedySplits | src/build_engine/executor/stream.py:47-60 | greedy chunks concatenate to the text and are non-empty and within the limit |
| Utf8.DecodeEncoded | src/build_engine/executor/stream.py:41-48 | round trip: every text is read back from its UTF-8 encoding |
| Utf8.EncodeDecoded | src/build_engine/executor/stream.py:41-48 | bytes that can be read are the encoding of what is read: no second form of a character is accepted |
| Utf8.LengthByRange | src/build_engine/executor/stream.py:48-56 | the length of an encoding: one byte a character, and one more each from U+0080, U+0800 and U+10000 on |
| Envelope.FramedLogsFit | src/build_engine/agent/protocol.py:79-85 | the 1 MiB check of to_json never rejects a log event that passes the 64 KiB check |
| Envelope.EscapedBound | src/build_engine/agent/protocol.py:79-85 | escaping yields ASCII of at most 6 bytes for each UTF-8 byte |
| Envelope.EscapeRoundTrip | src/build_engine/agent/protocol.py:79-85 | reading an escaped text back gives the text |
| Envelope.FrameRoundTrip | src/build_engine/agent/protocol.py:60-85 | round trip of a whole log frame: reading the JSON back gives the event, each member in its place |
| Redaction.SecretRedactor.constructor | src/build_engine/executor/stream.py:16-21 | keeps each non-empty secret once, longest first |
| Redaction.SecretRedactor.Redact | src/build_engine/executor/stream.py:23-29 | the iterated replacement: no secret that cannot overlap the token is left, no original piece is a secret, and a secret by itself becomes the token |
| Redaction.NoSecretSurvives | src/build_engine/executor/stream.py:23-29 | on characters marked with their origin, for any text and secrets: no secret is left as an unbroken piece of the original text |
| Redaction.RedactedCells | src/build_engine/executor/stream.py:23-29 | the redactor's output is exactly those characters without their marks, so the same holds of it |
| Redaction.OutputIsClean | src/build_engine/executor/stream.py:23-29 | no secret that cannot overlap the token occurs in the output, so later replacements recreate none |
| Redaction.WholeSecret | src/build_engine/executor/stream.py:16-29 | longest first: a secret by itself becomes one token, on which only shorter secrets may still act |
| Redaction.SecretBecomesToken | src/build_engine/executor/stream.py:16-29 | every secret is redacted to exactly `[REDACTED]` when no secret is part of the token |
| Redaction.ClearOccurrenceGoes | src/build_engine/executor/stream.py:16-29 | an occurrence of a secret that no earlier one runs into, in a text without longer secrets, leaves none of its characters in the output |
| Redaction.ForeignSecret | src/build_engine/executor/stream.py:23-29 | a secret sharing no character with the token cannot overlap it |
| Redaction.PartOfTokenStays | src/build_engine/executor/stream.py:23-29 | every part of the token, taken as a secret, is in the output of its own redaction |
| Redaction.LoneSecretExactly | src/build_engine/executor/stream.py:23-29 | a lone secret is gone from the output for every text if and only if no token can complete it again |
| LogPump.PumpStream | src/build_engine/executor/stream.py:32-44 | the frames carry exactly the redacted reads, each fits, and none contains a secret that cannot overlap the token |
| SiteCache.BuildCache.PrepareSiteCache | src/build_engine/executor/cache.py:98-136 | the directory and the HIT, MISS, WIPED or error answer for every case of marker, metadata and lockfile |
| SiteCache.BuildCache.PruneCache | src/build_engine/executor/cache.py:190-221 | both passes; the result lists exactly the removed roots, once each |
| SiteCache.PruneChildrenLru | src/build_engine/executor/cache.py:267-278 | deletes the shortest prefix by access time that meets the limit, or all content files |
| SiteCache.ByAtimeSorts | src/build_engine/executor/cache.py:273-273 | the deletion order has every content file once, least recently used first |
| SiteCache.TrimSurvives | src/build_engine/executor/cache.py:210-220 | a trimmed site survives exactly when its bookkeeping files alone fit |
| SiteCache.PruneGuarantee | src/build_engine/executor/cache.py:190-221 | remaining sites are within the limit and unexpired, excluded sites unchanged, and exactly which sites go |
| SiteCache.PruneLimits | src/build_engine/executor/cache.py:190-221 | in sizes of files: the total of a remaining site, and so each file, is within the limit; contents over the limit lose a file; a site within the limit stays as it is; which sites expire and survive |
| SiteCache.SiteBytesIsSum | src/build_engine/executor/cache.py:172-187 | the size compared with the limit is the sum over all files of the site in any order |
| SiteCache.TrimKeepsRecent | src/build_engine/executor/cache.py:267-278 | trimming keeps the bookkeeping files and, of the contents, those used last |
| SiteCache.SiteIdsAreSafe | src/build_engine/executor/cache.py:258-260 | a valid id is 1 to 128 ASCII letters, digits, `_` and `-`, so a single safe path component |
| CacheRuns.RunSafeExactly | src/build_engine/executor/docker_runner.py:260-262 | over every run: no guarded continuation can mismatch contents and lockfile, at any point, if and only if every container start found the root with its own lockfile recorded (or condemned by the marker) and every killed wipe left metadata, marker or nothing |
| CacheRuns.SafeExactly | src/build_engine/executor/cache.py:98-136 | the same for each single step of prepare, start, write, reset, killed wipe and prune |
| CacheRuns.ContentsMatchLockfile | src/build_engine/executor/cache.py:98-136 | over runs that meet the guards: each file was written under the lockfile recorded beside it |
| CacheRuns.PrepareOutcome | src/build_engine/executor/cache.py:121-136 | in those runs: HIT exactly when there is something to reuse, all of it written under the same lockfile; WIPED leaves no file |
| CacheRuns.DisabledThenWiped | src/build_engine/executor/cache.py:109-119 | over runs: after a build with the cache disabled the next enabled one gets WIPED and a new and empty root |
| CacheRuns.LivesFromPreparation | src/build_engine/executor/cache.py:200-209 | over runs: the time to live counts from the last enabled preparation; until then pruning spares a site within the limit, afterwards it removes the site |
| CacheRuns.PrepareSoundExactly | src/build_engine/executor/cache.py:112-128 | from any root: preparation is sound for every history of its files if and only if it has metadata or marker, or no files |
| CacheShortfalls.ResetBeforeStart | src/build_engine/executor/docker_runner.py:260-262 | a run without overlapping builds: a reset between preparation and start, and a later HIT on files of another lockfile |
| CacheShortfalls.KilledWipeIsAdopted | src/build_engine/executor/cache.py:237-246 | a run in which a killed wipe leaves a file that the next build adopts under another lockfile |

## Left out

- SQLite itself: WAL, the connection lock, busy errors and schema migration. Each store call is one step, as its immediate transaction or single statement makes it; each statement of `append` is its own step.
- `transition` to QUEUED or LEASED: specified and modelled, but the runs exclude it because no caller in the repository passes these targets (store.py:277-285).
- Foreign calls of `execute_job` (secret fetch, source download, Docker, upload): only its outcome is modelled. Which check raised a failure does not restrict the failure target, so more runs are covered than can happen.
- The clock never goes back in the runs, and each store call reads it inside its transaction; `datetime.now` can be set back, and `acquire_lease` and `refresh_lease` read it just before.
- Between `_ensure_current_attempt` and the SUCCEEDED commit a newer attempt or a cancel request may arrive, and the model lets it.
- What a worker publishes after its outcome when others interfere: it acknowledges even when its guarded transition was refused (job_loop.py:175-195), so only for an undisturbed iteration are published and durable state claimed to agree.
- PoolTheorems.NoSecretOnDisk: about the keys of stored payloads; a secret inside an error text or a spooled event is the redactor's business.
- Cancellation of an asyncio task inside `append` and the publishing loop of `_handle_cancel`.
- Websocket transport, authentication, heartbeats, backoff, hello and welcome contents, and the order of live sends against replayed ones on the wire.
- JSON, UUID and ISO 8601 parsing: events carry decoded fields and one flag for the other checks of `decode_frame`.
- `jobs_for_build`, `queue_depth`, `dlq_entries`, `queue/leases.py`, `queue/dlq.py`: listings and thin wrappers.
- The interval of `_refresh_lease` (job_loop.py:238): the runs refresh at any time, and `LeaseKeeping.KeptAlive` says how often is enough.
- JobLoop.RunIteration: one clock reading and no interleaving; `WorkerPool` has the interleaved loop.
- Redaction.OutputIsClean: for several secrets at once the condition is sufficient only, because a later replacement may remove what an earlier one wrote; for one secret `LoneSecretExactly` is exact, and `NoSecretSurvives` has no condition on the secret.
- LogPump.PumpStream: a secret split over two reads is not found, because each read is redacted on its own (stream.py:41-44).
- SiteCache.BuildCache.PruneCache: sites are visited in any order, so the order of the result list is not stated; the directory timestamp that a deletion bumps and the removal of empty directories are not modelled.
- Builds that overwrite or delete the metadata file, and a metadata write that is killed halfway. Containers of one site may overlap and keep writing to a removed directory.
- Framework detection, packaging, command line, configuration, metrics text.
