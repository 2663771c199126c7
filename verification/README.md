# Verified models of server components

A Dafny 4.11 model of the parts of this server that carry real state, with proofs of what they keep over whole runs.
`dafny verify dfyconfig.toml` checks everything. Each component has specification functions over a state value, lemmas
about every run of those functions, and, where the source changes objects in place, a class whose methods are proved to
show exactly those functions.

| component | files |
|---|---|
| durable run ledger | `Ledger` (writes of each operation), `LedgerStore` (the object), `LedgerProtocol` (processes, crashes, pid reuse), `LedgerSafety` (theorems), `LedgerCalls` (what each call leaves), `LedgerEndings` (runs that are over), `LedgerRuns` (keys, and concrete runs) |
| response cache | `LruSpec`, `LruMap` (linked list and hash map), `CacheSpec`, `CacheRequests` (keys, policies), `CacheTiers`, `CacheEngine` |
| ring buffers | `RingBuffers`, `Modular` (remainders) |
| circuit breaker | `BreakerSpec`, `BreakerRuns`, `BreakerSafety`, `BreakerChanges` (when the state changes), `BreakerRecovery` (getting stuck), `Breaker` (the object) |
| cron scheduler | `CronField`, `CronPrinting`, `CronExpression`, `CronGrammar` (what is accepted), `Calendar`, `NextRun`, `SchedulerSpec`, `SchedulerRuns`, `SchedulerSafety`, `SchedulerFiring`, `SchedulerUpdates`, `Scheduler` (the object) |
| delivery queue | `QueueSpec`, `QueueRuns`, `QueueSafety`, `QueueOrder`, `QueueRestart`, `MessageQueue` (the object) |
| command tokenizer | `Tokenizer`, `TokenizerMeaning` (what it does, by positions), `QuotingRoundTrip`, `JsonQuoting`, `ShellQuoting` |
| memory deduplication | `Deduplication` |

## How the source is read

- **Ledger.** The three directories are maps; an operation is the list of disk writes it performs, in order, and a
  process that dies leaves a prefix of that list behind. A process is a pid and a token. Pids are reused, tokens are
  not. A live-process set stands for `process.kill(pid, 0)`.
- **Cache.** The tiers hold the pointer-linked LRU map itself. Digests are injective, so a key is modelled by what it
  digests. Overwriting a live key keeps its old bytes in the total, as in the source.
- **Breaker and queue.** An asynchronous call is cut at its suspension points, so a completion can arrive in any later
  state. A callee may also throw before it returns a promise, which no completion follows. The queue's loop is cut when
  a send starts, when it has been settled and when the loop goes on. All interleavings of these pieces are covered, for
  the breaker under a clock that does not run backwards.
- **Cron.** Time is counted in minutes since the epoch. The search is proved for any function from minutes to date
  fields; the calendar results are for UTC. Month is always required, and the two day fields follow the source's rule.
  An update may set every field its type allows, the planned run included. `detectMissedRuns`, the startup loop, reads
  the clock once and compares every job with that time; nothing in the repository calls it.
- **Tokenizer.** Text is a sequence of UTF-16 code units, so unpaired surrogates exist.
- **Deduplication.** Similarity is an exact rational. The word set of a text is a parameter.

## Where the code does not do what one would expect

Each of these is proved for the code as it is, with the exact condition or a concrete run.

- A tool step recorded under a key that a safe step already carries leaves its run resumable, and the effect is
  replayed when the owner dies (`LedgerSafety.RecordQuarantinesIff`, `LedgerRuns.ReusedKeyHidesEffect`).
- A run whose owner dies between storing and indexing it is orphaned if another workflow takes its key: it stays
  running, starting it again is a conflict for ever, and if it is resumable reconciliation passes it over
  (`LedgerRuns.CrashOrphansARun`, `LedgerSafety.AnswersExactly`, `LedgerSafety.OrphanIsNeverGranted`).
- An index entry can change, exactly when it names the empty workflow id; only then can two live processes have been
  told `created: true` for one key (`LedgerSafety.EntryChangesIff`, `LedgerRuns.ExclusivePerKey`,
  `LedgerRuns.EmptyIdLosesItsEntry`).
- The breaker's documentation says an open breaker lets no call through and a half-open one a limited number. Sooner
  than its timeout an opened breaker admits a call exactly after a reset or after a late probe has closed it, and more
  probes than the maximum run exactly when a call meets a full set of probes that outlived a zeroing of the gate
  (`BreakerSafety.NoEarlyCall`, `BreakerSafety.LimitOverRuns`, with runs in
  `BreakerSafety.LateProbeClosesOpenBreaker` and `BreakerSafety.LeftoverExceedsMaximum`).
- A callee that throws before it returns a promise leaves the probe gate raised. It is proved exactly when a breaker
  never admits a call again without a trip or a reset (`BreakerRecovery.StuckExactly`,
  `BreakerRecovery.ThrowingCalleesGetItStuck`).
- The four-year search for a next run is a day too short for 29 February: a job that runs at one minute of that day has
  no next run whenever it has just run (`NextRun.LeapDayRunHasNoNext`).
- The startup loop starts a catch-up execution even while one of the same job is in flight
  (`SchedulerFiring.OneAtATimeExactly`, `SchedulerFiring.CatchUpOverlaps`).
- An update may move a job's plan off the minutes its expression calls for, or put the empty expression, unchecked,
  beside the old plan (`SchedulerFiring.EditKeepsPlanExactly`, `SchedulerFiring.MovedPlanMisses`).
- A queue saved while the third attempt of a delivery is under way, and put back after a restart, attempts it a fourth
  time; in no other case do attempts exceed three (`QueueRestart.RestartKeepsTheLimitExactly`,
  `QueueRestart.LastAttemptIsSaved`).
- Line breaks are in the tokenizer's list of operators to refuse, but never refused: they are white space first
  (`TokenizerMeaning.LineBreaksSeparate`).
- Cron fields are read leniently: what follows the digits of a number, and a second dash of a range, is ignored
  (`CronGrammar.ParseIntExactly`, `CronGrammar.AcceptedExactly`).
- The queue's comment lists waits of 2, 4 and 8 seconds. The third wait never happens (`QueueSafety.BackoffAndFailure`).
- Control characters and unpaired surrogates do not survive the JSON quoting of script arguments, and the default
  interpreter is refused (`QuotingRoundTrip.RoundTripIffClean`, `QuotingRoundTrip.BashIsRefused`).

## Model

| member | source | states |
|---|---|---|
| LedgerSafety.OwnerAliveExact | server/durableExecution.ts:115-120 | a live owner is never called dead, and a dead one is called alive exactly while another process has its pid |
| LedgerSafety.ExclusiveExecution | server/durableExecution.ts:124-138 | over every interleaving of calls, crashes between writes and pid reuse, at most one live process was told `created: true` for a workflow |
| LedgerSafety.GrantOnlyAfterDeath | server/durableExecution.ts:191-232 | a grant goes out only when everyone granted the workflow before is dead |
| LedgerSafety.MarkDropsOwnLock | server/durableExecution.ts:323-325 | the token test of a status mark never drops the lock of another live process |
| LedgerSafety.NoReplayAfterEffect | server/durableExecution.ts:140-143 | once a run holds a step outside the three safe ones, no later begin in any run is told `created: true` for it |
| LedgerSafety.ResumableExactly | server/durableExecution.ts:140-143 | a run can be resumed exactly when each of its steps is one of the three safe ones |
| LedgerSafety.RecordQuarantinesIff | server/durableExecution.ts:261-303 | recording an effect makes a resumable run unresumable exactly when no step carries the key of the call |
| LedgerRuns.ReusedKeyHidesEffect | server/durableExecution.ts:262-283 | a run, from an empty disk, in which a reused key hides a tool step and the next process is told `created: true` |
| LedgerSafety.LedgerAndIndexAgree | server/durableExecution.ts:176-232 | in every reachable state index entries name runs carrying their key, attempts count duplicate starts, keyed steps have distinct keys |
| LedgerSafety.HistoryOnlyGrows | server/durableExecution.ts:183-206 | between any two moments events are only appended, steps keep place, id and key, nonempty index entries stay |
| LedgerSafety.BeginLeavesEntry | server/durableExecution.ts:182-231 | a begin that returns a run or quarantines one leaves the index entry in place, repairing a lost one |
| LedgerSafety.EntryChangesIff | server/durableExecution.ts:176-182 | an index entry changes exactly when it is empty and its key starts another workflow |
| LedgerRuns.EmptyIdLosesItsEntry | server/durableExecution.ts:178 | a run in which the entry of an empty workflow id moves and two live processes share its key |
| LedgerRuns.ExclusivePerKey | server/durableExecution.ts:176-232 | in every run whose begins name nonempty workflows, at most one live process was told `created: true` for an idempotency key |
| LedgerSafety.ReconcileExactly | server/durableExecution.ts:239-253 | reconciliation interrupts exactly the listed running runs of dead owners that cannot be resumed, and changes nothing else |
| LedgerSafety.AnswersExactly | server/durableExecution.ts:176-206 | what starting any run again answers, whatever its status and owner: a conflict exactly when its key has gone to another workflow, a duplicate exactly when it is over or its owner counts as alive, created exactly for a resumable running run of a dead owner, interrupted exactly for one that cannot be resumed |
| LedgerSafety.AnswerIsForTheRequest | server/durableExecution.ts:179-206 | the run a begin answers with is the one asked for, and is what is stored from then on; a conflict exactly when the run its key or workflow leads to was asked for differently |
| LedgerSafety.ReviewIffBeginRefuses | server/durableExecution.ts:191-247 | reconciliation interrupts exactly the runs that need review; those the index leads to are exactly the ones begin would refuse as interrupted, and afterwards begin answers with a duplicate; the others are a conflict before and after |
| LedgerSafety.DeadOwnerIsSucceeded | server/durableExecution.ts:191-205 | a resumable run whose owner is dead and whose pid is free is granted to whoever asks exactly when the index leads to it, and is a conflict otherwise |
| LedgerSafety.OrphanIsNeverGranted | server/durableExecution.ts:176-182 | once the key of a run has gone to another workflow, the run is never granted again, in any run of the ledger |
| LedgerRuns.CrashOrphansARun | server/durableExecution.ts:228-230 | a crash before the index write and a second workflow with the same key orphan a resumable run |
| LedgerCalls.StoredUnderItsLock | server/durableExecution.ts:182-231 | wherever a begin dies, a run it has stored as its own is under its lock, and a run it has changed is indexed |
| LedgerCalls.MarkedBeforeUnlocked | server/durableExecution.ts:315-325 | wherever a mark dies, the lock is gone only once the run has its status |
| LedgerEndings.OverIsNotGranted | server/durableExecution.ts:191-206 | in every run of the ledger, a run that is not running is granted to nobody, by whatever calls, crashes and deaths of owners, until a mark sets it running again |
| LedgerCalls.BeginExactly | server/durableExecution.ts:183-232 | what a begin leaves stored: the start counted and logged, the owner changed exactly by created, the status exactly by interrupted, a new run as asked for, every other run as it was |
| LedgerCalls.ClaimExactly | server/durableExecution.ts:124-138 | a claim goes through exactly without a lock or with one of a dead holder, is refused as unreadable exactly for an empty one and as active exactly for one of a live holder |
| LedgerCalls.RecordExactly | server/durableExecution.ts:261-303 | a record gives the first step with its key, or without one its id, the status and the time, or adds a step exactly when there is none; it logs which, and changes nothing else |
| LedgerCalls.MarkExactly | server/durableExecution.ts:305-327 | a mark gives its run the status and changes no other; the lock is freed exactly when that ends the run for the process that owns it |
| LedgerSafety.StepKeepsInv | server/durableExecution.ts:163-232 | every call, every crash after any number of writes, and every process start or end keeps the invariant |
| LedgerStore.Ledger.BeginRunUnderLock | server/durableExecution.ts:173-232 | the writes and the answer of a begin are those of its plan, write by write |
| LedgerStore.Ledger.ClaimRun | server/durableExecution.ts:124-138 | the claim drops a dead holder's lock, creates exclusively, and refuses otherwise |
| LedgerStore.Ledger.RecordDurableStep | server/durableExecution.ts:255-303 | updates the step the call names or appends one, in one write |
| LedgerStore.Ledger.MarkDurableRunStatus | server/durableExecution.ts:305-327 | sets the status, then drops the caller's own lock if the run is over |
| LedgerStore.Ledger.ReconcileInterruptedRuns | server/durableExecution.ts:239-253 | the returned runs are exactly the runs written |
| LruSpec.LruInclusion | server/cacheEngine.ts:174-216 | for every trace and capacities k <= m the smaller recency list is a subsequence of the larger with equal values |
| LruSpec.RecencyIsLastTouch | server/cacheEngine.ts:174-198 | the list is ordered by last touch, latest first |
| LruSpec.EvictsLeastRecentlyTouched | server/cacheEngine.ts:194-253 | an eviction drops exactly the entry whose last touch is oldest |
| LruMap.LRUMap.Get | server/cacheEngine.ts:174-235 | finds the value and moves its node to the front; links, map and list stay one |
| LruMap.LRUMap.Set | server/cacheEngine.ts:181-198 | the linked list becomes the list of the specification; the evicted key is its last |
| LruMap.LRUMap.Delete | server/cacheEngine.ts:204-210 | unlinks the node and forgets the key, and no other |
| LruMap.LRUMap.EvictTail | server/cacheEngine.ts:246-253 | drops the last node of the list |
| LruMap.LRUMap.Unlink | server/cacheEngine.ts:237-244 | cuts one node out of the links, leaving both ends right |
| LruMap.LRUMap.Snapshot | server/cacheEngine.ts:222-225 | lists every entry once in the map's own order |
| CacheTiers.BooksSet | server/cacheEngine.ts:310-318 | a set keeps the byte law: total is live bytes plus overwritten bytes, and no clamp acts |
| CacheTiers.BooksRemove | server/cacheEngine.ts:284-333 | a removal gives back exactly the bytes of the entry, never more than the total |
| CacheTiers.ExactCache.Get | server/cacheEngine.ts:284-300 | a hit is an unexpired entry; an expired one is dropped and its bytes given back |
| CacheTiers.ExactCache.Set | server/cacheEngine.ts:302-320 | stores the entry in the linked map and keeps the byte law |
| CacheTiers.ExactCache.Delete | server/cacheEngine.ts:326-333 | removes the key and its bytes |
| CacheTiers.ExactCache.SweepExpired | server/cacheEngine.ts:341-354 | drops exactly the expired entries and counts them |
| CacheTiers.SemanticCache.FindBest | server/cacheEngine.ts:493-534 | the answer is an unexpired entry of the same context with the greatest similarity, at or above the threshold, and the first in the map's order among equals; if there is none, none reaches it |
| CacheTiers.SemanticCache.Store | server/cacheEngine.ts:536-563 | stores the entry in the linked map and keeps the byte law |
| CacheRequests.KeysExactly | server/cacheEngine.ts:279-282 | two requests share an exact key exactly when model, messages and parameters agree, a semantic context exactly when model, parameters, route and all messages not from the user agree, and a semantic entry when their texts agree as well |
| CacheRequests.TextOfParts | server/cacheEngine.ts:680 | the text of a conversation is the texts of its parts with a space between them |
| CacheRequests.PolicyExactly | server/cacheEngine.ts:897-905 | the policy for a route is the one registered for it, or else the first one registered for a prefix of it; the empty route has none |
| CacheRequests.BypassExactly | server/cacheEngine.ts:873-895 | a request goes past the cache exactly when it streams, asks for fresh answers, or its policy is off, forbids caching or lists a word its text contains |
| CacheRequests.LifetimeExactly | server/cacheEngine.ts:703-707 | the lifetime is the policy's, or the default without one, and never more than the global one |
| CacheRequests.RegisteredExactly | server/cacheEngine.ts:839-842 | registering a policy replaces the one of its route where it stands, or adds one at the end |
| CacheEngineModel.CacheEngine.Get | server/cacheEngine.ts:660-698 | an exact hit is the response of the latest allowed set with the same model, messages and parameters; a semantic hit that of the latest set for its text in the same context, none being more similar; neither has outlived its lifetime; a miss means no tier has an answer; every allowed get enters the rolling window once |
| CacheEngineModel.CacheEngine.Set | server/cacheEngine.ts:700-732 | an allowed set is recorded once, with the lifetime of its route, stored in both tiers next to what memory leaves room for, and can be read back; a bypassed one changes nothing |
| CacheEngineModel.CacheEngine.EnforceMemoryBudget | server/cacheEngine.ts:926-938 | the semantic tier is emptied exactly when use has reached 90 percent, the exact tier exactly when it still does without the semantic one; afterwards use is below that or both are empty |
| CacheEngineModel.CacheEngine.Sweep | server/cacheEngine.ts:921-925 | drops exactly the expired entries, and more only when use had reached 90 percent |
| CacheEngineModel.CacheEngine.SetPolicy | server/cacheEngine.ts:839-842 | registers the policy |
| RingBuffers.RingBuffer.ToArray | server/circuitBreaker.ts:101-112 | returns exactly the last min(n, capacity) pushed items, in order |
| RingBuffers.RollingWindowBuffer.Snapshot | server/cacheEngine.ts:122-130 | the same result by the other index formula |
| RingBuffers.RollingWindowBuffer.GetWindows | server/cacheEngine.ts:144-150 | the three windows are nested and bounded by the buffer |
| RingBuffers.WindowsNest | server/cacheEngine.ts:132-142 | a longer window counts at least as much |
| BreakerSafety.StateInvariants | server/circuitBreaker.ts:240-329 | in every run: CLOSED iff there is no opening time, a closed breaker stores fewer failures than open it, successes stay below their threshold, the log is a chain ending here |
| BreakerChanges.ChangesExactly | server/circuitBreaker.ts:240-329 | over every run the state changes logged are exactly those due, in order: opening by a trip, a failed probe or a failed call that finds the threshold of failures in the window; closing by a reset or the last success asked for; half open by use or a look after the timeout |
| BreakerChanges.OpensAndClosesExactly | server/circuitBreaker.ts:245-288 | in any reachable state a failed call opens a closed breaker exactly when, with it, the failures since the last clear in the window reach the threshold, and a success closes a half-open one exactly when it is the last one its threshold asks for |
| BreakerSafety.ProbeGate | server/circuitBreaker.ts:257-288 | the gate is the probes in flight and the leaked ones less those in flight when it was last zeroed, and never exceeds the maximum |
| BreakerSafety.LimitExactly | server/circuitBreaker.ts:257-268 | a step keeps the probes in flight within the maximum exactly when it is no call that meets a full set and an open gate |
| BreakerSafety.LimitOverRuns | server/circuitBreaker.ts:257-268 | a run stays within the maximum all along exactly when no step of it is such a call |
| BreakerSafety.NoEarlyCall | server/circuitBreaker.ts:168-184 | within the timeout of an opening a call is admitted exactly when there has been a reset or a late probe since; without overlapping episodes only a reset |
| BreakerSafety.ReportedFailures | server/circuitBreaker.ts:331-348 | what the statistics report are exactly the failures since the last clear that lie in the window |
| BreakerSafety.RejectionTellsWhen | server/circuitBreaker.ts:350-356 | a rejection by an open breaker carries the exact number of milliseconds until a call is admitted as a probe |
| BreakerSafety.CountersFollow | server/circuitBreaker.ts:240-338 | over every run the counters are the calls admitted, the failures reported and the openings in the log, and the last-event times those of the last failure and success |
| BreakerSafety.LeavingOpen | server/circuitBreaker.ts:207-329 | when and how an open breaker stops being open, both directions |
| BreakerSafety.LateProbeClosesOpenBreaker | server/circuitBreaker.ts:269-277 | a run in which a late probe closes an open breaker |
| BreakerSafety.LeftoverExceedsMaximum | server/circuitBreaker.ts:257-268 | a run in which more probes run than the maximum |
| BreakerRuns.PruneIsWindow | server/circuitBreaker.ts:340-348 | pruning from the front leaves exactly what lies in the window |
| BreakerRecovery.StuckExactly | server/circuitBreaker.ts:257-288 | at any moment of any run, no call will be admitted again without a trip or a reset exactly when the gate is full, no probe is in flight and the older calls in flight are too few to open the breaker |
| BreakerRecovery.ThrowingCalleesGetItStuck | server/circuitBreaker.ts:266-269 | callees that throw at once, as many as probes are allowed, bring that about |
| CircuitBreakerModel.CircuitBreaker.Execute | server/circuitBreaker.ts:168-184 | the fields show the specified start of a call, with its admission and whether anything is under way, for callees that throw at once as well |
| CircuitBreakerModel.CircuitBreaker.ProbeSettles | server/circuitBreaker.ts:269-286 | the fields show the specified end of a probe, whatever the state is by then |
| CircuitBreakerModel.CircuitBreaker.NormalSettles | server/circuitBreaker.ts:240-255 | the fields show the specified end of a call |
| CircuitBreakerModel.CircuitBreaker.PruneOldFailures | server/circuitBreaker.ts:340-348 | the loop drops exactly the old timestamps at the front |
| CircuitBreakerModel.CircuitBreaker.GetEventLog | server/circuitBreaker.ts:228-230 | returns the last fifty changes |
| CircuitBreakerModel.ReportedChain | server/circuitBreaker.ts:358-360 | each reported change starts where the one before ended, and the last one ends in the current state |
| CronField.ParseSingleField | server/cronScheduler.ts:175-228 | adds exactly the progression the token stands for, or throws the right error |
| CronField.ParseField | server/cronScheduler.ts:163-173 | the union over the list elements, with the first error winning |
| CronField.AcceptedFieldsAreProper | server/cronScheduler.ts:197-228 | an accepted field is never empty and stays within bounds |
| CronGrammar.ParseIntExactly | server/cronScheduler.ts:188 | a text is read as a number exactly when it is white space, a sign or none, digits and then anything but a digit |
| CronGrammar.ElementExactly | server/cronScheduler.ts:175-228 | a list element is accepted exactly when it reads as a star, a number or a range in bounds, with or without a step, and then stands for just that span |
| CronGrammar.RefusedExactly | server/cronScheduler.ts:190-219 | what is refused is refused for its step if that does not read, else for its range if it has a dash, else for its value |
| CronGrammar.AcceptedExactly | server/cronScheduler.ts:144-263 | an expression is accepted, as a given schedule, exactly when it is five words with white space between and around them whose fields all read in their bounds, seven being Sunday |
| CronPrinting.ItemRoundTrip | server/cronScheduler.ts:175-228 | parsing a printed item gives its progression |
| CronPrinting.FieldRoundTrip | server/cronScheduler.ts:144-173 | parsing a printed list of items in range gives the union of their progressions |
| CronExpression.ParseCron | server/cronScheduler.ts:241-263 | five fields in order, seven folded to Sunday |
| CronExpression.ParsedIsProper | server/cronScheduler.ts:248-261 | no parsed field is empty, all are within bounds, a bare star allows every day |
| CronExpression.ExpressionRoundTrip | server/cronScheduler.ts:241-291 | for every schedule and every spacing, the printed expression matches a date exactly when the schedule means it |
| Calendar.DateRoundTrip | server/cronScheduler.ts:267-271 | the date fields of a day number are those of the date it was made from |
| Calendar.DayRoundTrip | server/cronScheduler.ts:267-271 | every day has a valid date with that day number |
| Calendar.CalendarStep | server/cronScheduler.ts:266-271 | the next day has the next date and the next weekday |
| Calendar.CalendarIsCountedOff | server/cronScheduler.ts:266-271 | the dates and weekdays are the only ones counted off by the calendar rules, both ways, from Thursday, 1 January 1970 |
| NextRun.GetNextRunTime | server/cronScheduler.ts:302-320 | the search loop returns the specified next run |
| NextRun.NextRunIsExact | server/cronScheduler.ts:302-320 | the result is the least matching minute strictly after the start, and it throws exactly when no minute of the window matches |
| NextRun.SearchFailsExactly | server/cronScheduler.ts:276-320 | in the civil calendar the search fails exactly when day-of-week is a bare star, day-of-month is not, no named day exists every year, and no named minute of a 29 February is in the window |
| NextRun.ThrowsExactly | server/cronScheduler.ts:302-320 | the same for every accepted expression and every start instant |
| NextRun.LeapDayRunHasNoNext | server/cronScheduler.ts:309 | a job that runs at one minute of 29 February never has a next run when it has just run |
| SchedulerSafety.TickFiresExactly | server/cronScheduler.ts:588-620 | a tick fires exactly the enabled jobs due when it starts, each once |
| SchedulerSafety.CountersAreHonest | server/cronScheduler.ts:420-452 | over every run the counters are the runs, the failures and the failures since the last success, skips aside |
| SchedulerSafety.FailuresAreRuns | server/cronScheduler.ts:436-441 | failures never exceed runs, nor the streak the failures |
| SchedulerSafety.DisabledAtTheLimit | server/cronScheduler.ts:439-449 | a recorded failure leaves a job enabled exactly when it was and its streak is below the limit |
| SchedulerSafety.ReenablingKeepsTheStreak | server/cronScheduler.ts:412-414 | enabling a job does not reset its streak: the next failure counts on |
| SchedulerUpdates.UpdateTakesEffect | server/cronScheduler.ts:366-390 | an update is refused exactly for an invalid new expression; otherwise every given field has the given value and every other its old one, a new expression bringing its own plan |
| SchedulerUpdates.CreatedAsAsked | server/cronScheduler.ts:326-364 | a job is created with the fields asked for, its first plan and nothing on record; exactly an invalid expression is refused |
| SchedulerUpdates.RecordedExactly | server/cronScheduler.ts:420-466 | a recorded outcome is the last on record with its time; a job left enabled is planned anew, any other has no plan |
| SchedulerUpdates.TurnExactly | server/cronScheduler.ts:521-556 | a turn of the startup loop starts its job exactly when that is enabled, catches up and was planned before the loop began, records a skip exactly for one that does not catch up, and leaves any other alone |
| SchedulerUpdates.StartedInOrder | server/cronScheduler.ts:588-620 | a tick starts its jobs in the order of the job list |
| SchedulerUpdates.OthersInOrder | server/cronScheduler.ts:392-398 | a deletion keeps the other jobs in their order |
| SchedulerUpdates.SwitchedOff | server/cronScheduler.ts:392-414 | an update that disables a job, and a deletion, switch it off |
| SchedulerUpdates.OffIsNotStarted | server/cronScheduler.ts:521-620 | over every run, from the moment a job is off no tick fires it and no startup loop catches up with it until an update enables it |
| SchedulerFiring.FiresOncePerMinute | server/cronScheduler.ts:601-658 | over every run the minutes in which a job fires are strictly ascending, despite pruning |
| SchedulerFiring.OneAtATimeExactly | server/cronScheduler.ts:521-548 | a step keeps to one execution per job exactly when it is no turn of the startup loop that starts a job in flight |
| SchedulerFiring.OneExecutionAtATime | server/cronScheduler.ts:606-648 | over every such run no job has two executions, and a tick fires a job only after its previous one settled |
| SchedulerFiring.CatchUpDoubles | server/cronScheduler.ts:521-538 | in any run a turn of the startup loop starts a catch-up job planned before the loop began, whatever is in flight |
| SchedulerFiring.CatchUpOverlaps | server/cronScheduler.ts:521-548 | one loop over two missed jobs, the first of them slow, leaves two executions of the second |
| SchedulerFiring.PlansAreKept | server/cronScheduler.ts:455-464 | over every run whose updates keep the plans they touch, planned runs are minutes the expression calls for |
| SchedulerFiring.PlansAreKeptExactly | server/cronScheduler.ts:366-390 | a step keeps that exactly when it is no update that moves a plan elsewhere or puts the empty expression beside one |
| SchedulerFiring.EditKeepsPlanExactly | server/cronScheduler.ts:366-390 | an update keeps a plan exactly when it gives a nonempty expression, leaves no plan, touches neither, or moves the plan alone to a minute the expression calls for |
| SchedulerFiring.MovedPlanMisses | server/cronScheduler.ts:375 | a run of two steps in which an update moves a plan off the minute |
| SchedulerFiring.PlannedMinuteFires | server/cronScheduler.ts:588-620 | a tick in the planned minute fires the job unless it is running or has fired in it |
| SchedulerFiring.WaitsForThePlan | server/cronScheduler.ts:455-464 | after an execution is recorded no tick fires the job before the planned minute |
| SchedulerFiring.CronIsSound | server/cronScheduler.ts:302-320 | cron expressions satisfy what those results ask of a timetable, the empty one included |
| CronSchedulerModel.CronScheduler.CreateCronJob | server/cronScheduler.ts:326-364 | refuses an invalid expression, otherwise adds a job with its first plan and clean counters |
| CronSchedulerModel.CronScheduler.Settle | server/cronScheduler.ts:624-648 | records the outcome and frees the slot, whether or not the job still exists |
| CronSchedulerModel.CronScheduler.CheckMissed | server/cronScheduler.ts:518-556 | a job planned before the loop began is started when it catches up, otherwise a skip is recorded |
| CronSchedulerModel.CronScheduler.Tick | server/cronScheduler.ts:578-660 | the tick shows the specified new state and started executions |
| CronSchedulerModel.CronScheduler.RecordExecution | server/cronScheduler.ts:420-470 | records an outcome and plans the next run; an unknown job changes nothing |
| CronSchedulerModel.CronScheduler.Prune | server/cronScheduler.ts:653-659 | keeps exactly the entries of the current and the previous minute |
| CronSchedulerModel.CronScheduler.UpdateCronJob | server/cronScheduler.ts:366-390 | spreads the given fields over one job and replans it for a new expression, or does nothing when that is refused |
| CronSchedulerModel.CronScheduler.DeleteCronJob | server/cronScheduler.ts:392-398 | removes the job and frees its slot |
| QueueSafety.NothingIsLost | server/messagingHub.ts:1273-1291 | sent plus failed plus depth is the number of deliveries, in every run |
| QueueSafety.OnePassNoLostWakeUp | server/messagingHub.ts:1353-1402 | at most one pass is scheduled or running, attempts stay within three, and a pending delivery always has a pass coming |
| QueueSafety.EveryDeliverySettles | server/messagingHub.ts:1360-1437 | a measure bounds the steps left, and when nothing is left to do every delivery is sent or failed |
| QueueSafety.BackoffAndFailure | server/messagingHub.ts:1404-1437 | two seconds after the first attempt, four after the second; failed exactly when refused for good or out of attempts |
| QueueSafety.SettlesItsOwnOnly | server/messagingHub.ts:1402-1437 | the end of a send changes no other record, postpones no other entry and keeps every place |
| QueueOrder.FirstComeFirstServed | server/messagingHub.ts:1360-1373 | at any moment of any run a pass sends exactly what is due when it begins, and of two such deliveries first the one enqueued first |
| QueueSafety.StepKeepsInv | server/messagingHub.ts:1232-1437 | every enqueue, timer and returning send keeps the invariant |
| QueueSafety.StepProgress | server/messagingHub.ts:1360-1437 | every step but an enqueue makes the measure smaller |
| MessageQueueModel.MessageQueue.ProcessQueue | server/messagingHub.ts:1360-1373 | the object shows the specified start of a pass |
| MessageQueueModel.MessageQueue.SendReturns | server/messagingHub.ts:1402-1437 | the object shows the specified end of a send |
| MessageQueueModel.MessageQueue.PassGoesOn | server/messagingHub.ts:1369-1391 | the object shows the next send of the pass, or its end |
| MessageQueueModel.MessageQueue.Restore | server/messagingHub.ts:1309-1341 | puts back what was saved and schedules a pass if it holds anything |
| QueueRestart.RestartExactly | server/messagingHub.ts:1309-1341 | what was saved is put back as it was, and one pass is scheduled at once exactly when that holds anything |
| QueueRestart.RestartKeepsTheLimitExactly | server/messagingHub.ts:1309-1341 | what is saved after any run can be put back at any time without attempts exceeding three in any later run exactly when no delivery was saved in the middle of its third attempt |
| QueueRestart.RestartKeepsThePromises | server/messagingHub.ts:1309-1402 | then one pass at most and no lost wake-up hold after the restart as well |
| QueueRestart.LastAttemptIsSaved | server/messagingHub.ts:1257-1259 | a run in which enqueueing a message saves another one in its third attempt |
| MessageQueueModel.MessageQueue.EndPass | server/messagingHub.ts:1375-1391 | settled entries leave and another pass is scheduled for the earliest retry |
| Tokenizer.ParseStructuredCommand | server/cliToolEngine.ts:273-336 | the index loop computes the specified tokens or error |
| TokenizerMeaning.TokenizesExactly | server/cliToolEngine.ts:273-336 | what every command line is read as, said of its positions: refused for its first operator outside quotes, else for an open quote, no word or an unlisted first word, else read as its words without quotes and escapes |
| TokenizerMeaning.NoOperatorPasses | server/cliToolEngine.ts:309-310 | a command is refused for an operator exactly when it holds one outside quotes, and the error names the first; in an accepted one every operator stands inside quotes |
| TokenizerMeaning.LineBreaksSeparate | server/cliToolEngine.ts:257-310 | white space outside quotes is all the same, line breaks included, though these are listed as operators |
| ShellQuoting.EveryCommandCanBeWritten | server/cliToolEngine.ts:273-336 | for every listed name, in capitals or not, and every argument list there is a line that is read as just these |
| ShellQuoting.AllowlistedExactly | server/cliToolEngine.ts:332-335 | the names accepted are exactly those listed |
| QuotingRoundTrip.RoundTripIffClean | server/cliToolEngine.ts:616-617 | for every allowlisted executable the printed line is read back as the same arguments exactly when none holds a control character or an unpaired surrogate |
| QuotingRoundTrip.LineTokens | server/cliToolEngine.ts:616-617 | whatever the arguments hold, the line is read as the interpreter and one token an argument |
| QuotingRoundTrip.ReadIffClean | server/cliToolEngine.ts:273-300 | an unclean argument is read back longer than it was |
| JsonQuoting.UnescapeEscape | server/cliToolEngine.ts:616-617 | a JSON reader gives every quoted text back, so what is lost is lost by the tokenizer |
| JsonQuoting.EscapedExactly | server/cliToolEngine.ts:616-617 | which characters are escaped by a letter, which by their number, and that no other is |
| JsonQuoting.EscapedIsClean | server/cliToolEngine.ts:616-617 | what is printed holds no control character and no unpaired surrogate |
| QuotingRoundTrip.BashIsRefused | server/cliToolEngine.ts:332-335 | the default interpreter is not on the list |
| Deduplication.JaccardSimilarity | server/memoryUpgrades.ts:58-68 | the loop computes the share of common words |
| Deduplication.JaccardLaws | server/memoryUpgrades.ts:54-68 | symmetric, between 0 and 1, and 1 for equal sets only |
| Deduplication.AboveThreshold | server/memoryUpgrades.ts:333-335 | the threshold test, without a division |
| Deduplication.CompareWithLater | server/memoryUpgrades.ts:330-358 | the inner loop drops exactly those that lose a comparison of its turn, and keeps every dropped memory linked to one that stays |
| Deduplication.DeduplicateMemories | server/memoryUpgrades.ts:315-361 | the survivors are exactly those that do not go, in order; no two are similar above 0.8, and every memory is linked by a chain of ever preferred duplicates to a survivor |
| Deduplication.WhoGoes | server/memoryUpgrades.ts:324-358 | a memory goes exactly when it is compared with one that is similar above 0.8 and preferred, both being there when their turn comes, the pairs taken in order |
| Deduplication.MaximalAndBest | server/memoryUpgrades.ts:301-361 | the same of any set of removed positions that leaves everything represented and no duplicates |
| Deduplication.ChainImproves | server/memoryUpgrades.ts:338-352 | the end of a chain is preferred to its start |

## Left out

- Routes, streams, the gRPC bridge, the client, build and test configuration: plumbing.
- Real files, fsync, SQLite, Redis persistence and warm-up: maps and explicit crash steps stand for them.
- Lost updates between unlocked reads and writes of different processes on one ledger file: each call is one step.
- Run metadata, step details and errors, redaction, message id and execution mode: carried along unread.
- Reading the clock several times within one synchronous piece of code: one reading serves all of it.
- Hash collisions and `hash` file names: keys are their contents.
- Keyword and refresh tests of the cache bypass, TF-IDF and cosine similarity: function parameters of the engine.
- `PrefixOptimizer`, statistics per model and cost savings: counters.
- `onStateChange` callbacks of the breaker and `onChange` of the queue: assumed not to call back or throw.
- The queue's message history of 500, and channels or adapters that are gone after a restart: their deliveries are failed on the spot.
- Adapters: a send comes back accepted, refused or throwing.
- Local time zones and daylight saving: the search covers any clock, the calendar results UTC only.
- `parseInt` beyond 2^53 and dates beyond the range of `Date`: integers are unbounded.
- `normalizeJobTimeout` and timers: a timeout is an execution that settles as timed out while its promise may go on.
- A callback that throws before its first suspension: it settles after the tick rather than within it.
- Reloading the job store, several schedulers in one process, and a catch-up of a job deleted while the startup loop waits: one store, one tick loop, existing jobs.
- The order in which one startup loop visits the jobs: its turns are taken in any order, each at the time the loop began.
- Update fields outside the declared type, such as the id or the counters: the route passes a request body on unchecked.
- Aliasing of job objects: the job list is a sequence of values, updated at an index as the source writes it back.
- `tokenise` and the stop words: the word set of a text is a parameter.
- Lower case outside ASCII in the tokenizer: only the Kelvin sign lowers to a letter the name test accepts.
- `classifyRetry`, identity, marketplace, model selection and compaction: single formulas beside the components above.
