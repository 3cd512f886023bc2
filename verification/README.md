# Verified model of the kube-ops-agent runtime

This project models the production runtime of the Kubernetes operations agent: the small stateful
controllers around an agent execution and the loops that drive them. It proves what they promise over
whole runs, for all inputs.

- `PlanRound.dfy`: the step loop of an intelligent round (`depends_on`, `skip_agents`, sequential and
  parallel steps).
- `ParallelStep.dfy`, `Worker.dfy`: the goroutines of plan steps as an interleaving of atomic moves over two
  nested semaphores, and one `Execute` call with its retry loop.
- `WholeRound.dfy`: all steps of a round together, with agents that keep a state from step to step.
- `Executor.dfy`, `Operations.dfy`: `Execute` with the four records it keeps (breaker, metrics, state,
  history), the bounded history, its pages and its running means.
- `Persistence.dfy`: scheduler state in memory and on disk, with faults and crashes at every point of a save.
- `AgentCache.dfy`, `RecentKeys.dfy`: the LRU + TTL cache of worker agents.
- `TokenBucket.dfy`, `CircuitBreaker.dfy`, `AuthLimiter.dfy`: three controllers with timed state.
- `AdaptivePlan.dfy`: the recursion over plans made at run time, cyclic ones included.
- `Backoff.dfy`, `SimpleRound.dfy`: retry delays under jitter, and the spacing of runs in simple mode.
- `Clock.dfy`, `Option.dfy`: shared definitions.

`dafny verify dfyconfig.toml` checks everything.

How the outside world enters: clock readings are parameters, in whole nanoseconds (seconds over the reals in
the token bucket); a worker run is an arbitrary outcome, or an arbitrary function of the agent's own state;
jitter is a parameter in [0, 1); the order in which Go ranges over a map, or in which goroutines finish, is a
nondeterministic choice. Floating-point values are exact reals.

Objects that Go updates in place are classes. Each of their methods is proved against a function on plain
values (`Apply`, `Try`, `Recorded`, `Execute`, ...), and the theorems are about runs of those functions.

Where the code does not do what it is for, the code is modelled as written and the exact condition is proved:

- A retry that succeeds is recorded and returned as a failure (`Workers.WrittenLoopDiffersOnRecovery`).
- An eviction removes a least recently used entry exactly if the empty key is not strictly the oldest
  (`AgentCaching.EvictionFindsOldest`). Otherwise, depending on the order in which Go ranges over the map, a turn
  of the loop may pick a wrong victim (`AgentCaching.EmptyKeyMisleadsEviction`) or remove nothing
  (`AgentCaching.EvictionStalls`); every order removes nothing exactly if the empty key is the only one
  (`AgentCaching.StallsDependOnOrder`).
- A circuit threshold below one breaks the breaker's bookkeeping (`CircuitBreakers.ThresholdMustBePositive`).
- The active set can lose a name that two runs share: while no circuit is open, exactly if the channels have
  room for two goroutines of one name at the same time (`ParallelSteps.ActiveIsExactIffNoClash`).
- `authCheck` asks for a block and records a failure in two separate turns at the lock, so a block can be moved on
  by a failure that comes during it. Blocks hold in every interleaving exactly if at most one request of each
  address is past the question at a time (`AuthLimiters.BlocksHoldIffOneAtATime`).
- The error of a failed load is dropped, and the next save then replaces all history on file
  (`Persistence.FailedLoadLosesHistory`); otherwise no run count on file ever goes down
  (`Persistence.CommittedRunsOnlyGrow`).
- State that is not dirty can differ from the file: it is on disk exactly if a load or save has succeeded or
  there is nothing to load (`Persistence.CleanIsSavedIffSynced`).
- An intelligent round whose self-driven summary succeeds, or whose plain summary fails, ends without saving
  (`Persistence.RoundIsDurableIffSaved`); after any sequence of rounds the file holds the memory of the last one
  that saved (`Persistence.FileHoldsLastSavedRound`).
- Backoff delays stay within their bounds only for multipliers of at least one, and in order only from 1.25
  on, unless the first retry already waits the maximum (`Backoffs.DelaysAreBounded`, `Backoffs.DelaysAreOrdered`).
- `docs/workflow.md` shows one concurrency slot around the whole retry loop; the code takes a slot for each
  attempt and sleeps without one, and the model follows the code.

## Model

| member | source | states |
|---|---|---|
| PlanRounds.RunSteps | internal/scheduler/scheduler.go:293-417 | the loop's results end a history in which every step either leaves the results alone or adds exactly what its agents deliver on the texts of its dependencies |
| PlanRounds.RunStep | internal/scheduler/scheduler.go:296-399 | a step is skipped unless its dependencies have results and an agent survives; a sequential step writes in list order, a parallel one in some order |
| PlanRounds.FilterSkipped | internal/scheduler/scheduler.go:315-331 | the agents of a step without those to be skipped, in order |
| PlanRounds.CheckDeps | internal/scheduler/scheduler.go:299-311 | true exactly if every dependency has a result |
| PlanRounds.RunInAnyOrder | internal/scheduler/scheduler.go:374-399 | whatever order the goroutines finish in, the step's result is a merge of their outcomes |
| PlanRounds.RunSequentially | internal/scheduler/scheduler.go:361-373 | the outcomes are written one after the other, each computed from inputs fixed before the first |
| PlanRounds.WriteAllMerges | internal/scheduler/scheduler.go:360-399 | writing in list order is one of the orders of a parallel step |
| PlanRounds.MergeIsUnique | internal/scheduler/scheduler.go:360-399 | for distinct agents every order of writes gives the sequential result |
| PlanRounds.LoopRunsSupportedSteps | internal/scheduler/scheduler.go:295-331 | in every round, agents that share a name included, the loop runs exactly the steps whose dependencies earlier such steps gave results |
| PlanRounds.LoopRunsLiveSteps | internal/scheduler/scheduler.go:295-331 | the loop runs exactly the steps that are live in the recursive meaning of the plan alone |
| PlanRounds.ResultsAreValues | internal/scheduler/scheduler.go:293-399 | what each step finds in the results is what the plan alone determines, asked backwards from the step |
| PlanRounds.RoundsAreDeterministic | internal/scheduler/scheduler.go:293-399 | if the agents of each parallel step are distinct, the order of completion shows in none of the round's results |
| PlanRounds.AgentsAnswerTheirInputs | internal/scheduler/scheduler.go:341-399 | each agent of a step is handed exactly the texts of the step's dependencies, and its reply to them is its result; without a reply its result stays |
| PlanRounds.StepAnswersInputs | internal/scheduler/scheduler.go:341-399 | the same for agents that occur twice: in a sequential step the last reply stands |
| PlanRounds.SurvivorsKeepOrder | internal/scheduler/scheduler.go:315-328 | the skip filter loses and moves none of the agents that stay |
| PlanRounds.ResultsComeFromRuns | internal/scheduler/scheduler.go:293-399 | an agent has a result exactly when an earlier step that ran gave it one |
| PlanRounds.ResultsGrow | internal/scheduler/scheduler.go:293-399 | the set of agents with results only grows |
| PlanRounds.SkippedHaveNoResult | internal/scheduler/scheduler.go:315-331 | skipped agents never have a result |
| PlanRounds.SuppressedHaveNoResult | internal/scheduler/scheduler.go:299-331 | transitive dependents of skipped or failed agents, and circles of dependencies, never get a result |
| PlanRounds.EveryStepRunsIffOrdered | internal/scheduler/scheduler.go:295-331 | if all agents succeed, every step with an agent left runs exactly if each dependency is an agent left in an earlier step |
| ParallelSteps.AlwaysSafe | internal/runtime/production.go:115-134 | in every state of every schedule, cancelled or not, each channel counts exactly its holders, within its capacity, and active names belong to running goroutines |
| ParallelSteps.StepIsSafe | internal/runtime/production.go:115-134 | every single move keeps those counts; sleepers hold no slot |
| ParallelSteps.ActiveIsExactIffNoClash | internal/runtime/production.go:115-134 | the active set is the names running inside their slots on every schedule, exactly if no two goroutines of one name have room to run together |
| ParallelSteps.ActiveIsExact | internal/runtime/production.go:124-131 | without such a pair the active set is exact on every schedule, whatever the circuits and workers do |
| ParallelSteps.ClashLosesName | internal/runtime/production.go:124-131 | for such a pair, a schedule from the start to a state in which the set misses a running agent |
| ParallelSteps.RepeatedNameIsLost | internal/runtime/production.go:127-131 | of two runs under one name, the first to finish takes the name off the active set while the other still runs |
| ParallelSteps.ActiveCountIsBounded | internal/runtime/production.go:136-140 | the active count never exceeds the slots taken |
| ParallelSteps.Progress | internal/scheduler/scheduler.go:354-398 | with room for one in every channel there is no deadlock |
| ParallelSteps.WaitersNeedASlot | internal/scheduler/scheduler.go:354-358 | once only waiters are left, one can go on exactly if the agent channel has capacity |
| ParallelSteps.SchedulesEnd | internal/scheduler/scheduler.go:374-398 | no schedule is longer than the work there is |
| ParallelSteps.StuckIsFinal | internal/scheduler/scheduler.go:374-398 | a schedule that cannot go on has finished every goroutine |
| ParallelSteps.CanFinish | internal/scheduler/scheduler.go:374-398 | every safe state can be run to completion without cancelling anything |
| ParallelSteps.Confluence | internal/scheduler/scheduler.go:340-399 | for distinct names every complete schedule leaves the results and all agents' states as the sequential loop does |
| ParallelSteps.CancelledConfluence | internal/scheduler/scheduler.go:340-399 | with cancellations too, what a schedule leaves depends only on where in its own course each goroutine found its context done |
| ParallelSteps.CancelledMoveEndsCall | internal/agent/executor.go:70-106 | a context that is done makes a waiting call a recorded failure and ends a sleeping one without a record |
| ParallelSteps.CompanyIsUnfelt | internal/agent/executor.go:62-148 | whatever the others do, a goroutine goes where it goes alone |
| ParallelSteps.SequentialPointwise | internal/scheduler/scheduler.go:361-373 | the sequential loop runs each agent once on the state it had at the start |
| WholeRounds.RoundIsSequential | internal/scheduler/scheduler.go:293-399 | for agents with a state of their own, every interleaving of every step's goroutines leaves results and states, at each step of the round, as the sequential round does |
| WholeRounds.AgentsRunOnTheirInputs | internal/scheduler/scheduler.go:341-399 | each agent of a step runs once, on its own state, with a worker that was handed exactly the texts of the step's dependencies |
| WholeRounds.RoundCompletes | internal/scheduler/scheduler.go:293-399 | however far a round has come it can be completed |
| WholeRounds.WholeRoundIsRound | internal/scheduler/scheduler.go:293-399 | its results are those of a round whose agents have no state, and it runs exactly the live steps |
| WholeRounds.SequentialWritesAll | internal/scheduler/scheduler.go:361-373 | the sequential loop writes what its agents reply, each on the state the ones before it leave |
| Workers.AttemptsAreBounded | internal/agent/executor.go:70-115 | at most three attempts, only retryable errors are retried, and the loop stops early only for a reply, a final error or a cut sleep |
| Workers.OneOutcomeIsRecorded | internal/agent/executor.go:108-148 | a call not cut short records exactly one outcome, a success exactly if its first attempt replied |
| Workers.ClearedLoopReportsAnyReply | internal/agent/executor.go:62-148 | the loop with the error cleared records a success exactly if some attempt replied |
| Workers.WrittenLoopDiffersOnRecovery | internal/agent/executor.go:108-120 | the written loop does what was meant exactly unless a retry replied |
| Workers.RecoveredCallIsReportedFailed | internal/agent/executor.go:108-134 | a concrete worker whose recovered reply is thrown away |
| Executors.Executor.Execute | internal/agent/executor.go:44-149 | text and all records after a call are those of the specification, with or without a model and each of the recorders |
| Executors.CallIsRecordedOnceOrNever | internal/agent/executor.go:53-148 | a call makes one record in all four places or none in any; refused and cut calls make none |
| Executors.CallReturnsFirstReply | internal/agent/executor.go:53-149 | the text of a call is that of its first attempt if the call is recorded and that attempt replied, and none otherwise |
| Executors.RecordingIsReachedIff | internal/agent/executor.go:45-76 | which calls are recorded: known agent, model, circuit not open at the gate, and no cut in the at most two sleeps the attempts lead to |
| Executors.CallLeavesRecord | internal/agent/executor.go:117-148 | what a recorded call leaves in breaker, metrics, state and history, field by field |
| Executors.RecordersAgree | internal/agent/executor.go:117-148 | over any run of calls those of metrics, state and history that are set up agree on every agent's runs and failures, and the breaker counts no more failures than the state does in a row |
| Operations.StoreIsTail | internal/operations/manager.go:78-92 | the history is the last thousand of all records, in order |
| Operations.NewestFirstIsFaithful | internal/operations/manager.go:105-121 | filtering keeps every match exactly as often as it was recorded, and nothing else |
| Operations.NewestComesFirst | internal/operations/manager.go:105-121 | the filtered history lists all places of records that pass each of the given filters, and only those, from the last to the first |
| Operations.PageIsCut | internal/operations/manager.go:123-131 | a page holds what lies at its offset, as much as there is and no more than the limit |
| Operations.PagesAreComplete | internal/operations/manager.go:123-131 | the pages at offsets 0, limit, 2*limit, ... concatenate to the filtered history |
| Operations.PagesArePrefix | internal/operations/manager.go:123-131 | the first k pages are the first k*limit matches |
| Operations.Manager.Record | internal/operations/manager.go:86-91 | the record is appended and the oldest dropped beyond a thousand |
| Operations.Manager.GetHistory | internal/operations/manager.go:96-132 | the page and the total of the filtered history, newest first |
| Operations.Manager.GetSummary | internal/operations/manager.go:142-165 | the loop computes the aggregate of the records kept |
| Operations.CountsAreExact | internal/operations/manager.go:143-158 | each agent's counters are the exact counts of its records |
| Operations.LastRunIsExact | internal/operations/manager.go:154-157 | an agent's last run is the finish of its last record that did not fall in the second of the epoch |
| Operations.MeanIsExact | internal/operations/manager.go:159-164 | the running mean is sum divided by count, for every agent |
| Operations.TotalsAddUp | internal/operations/manager.go:143-149 | the agents' totals add up to the number of records kept |
| Operations.MetricsAreExact | internal/runtime/metrics.go:49-65 | the collector's counters and total duration are those of the full log |
| Operations.LastDurationIsExact | internal/runtime/metrics.go:49-65 | the collector's last duration is that of the agent's last record |
| Operations.SuccessRateIsExact | internal/runtime/metrics.go:18-23 | the success rate is the share of successes in the full log, and one exactly if there are no failures |
| Operations.MeansAgree | internal/runtime/metrics.go:26-31 | history and metrics report the same mean as long as nothing was trimmed |
| Operations.MetricsCollector.RecordExecution | internal/runtime/metrics.go:49-65 | one execution updates exactly its agent's counters |
| Persistence.StatePersistence.Load | internal/runtime/state.go:49-80 | memory becomes what the file holds, nothing for no file, and stays as it was on an error |
| Persistence.StatePersistence.Save | internal/runtime/state.go:83-113 | the files pass through exactly the listed states, whatever fails; dirty is cleared only on success |
| Persistence.StatePersistence.UpdateAgent | internal/runtime/state.go:116-142 | counters, last run and last success of one agent, and the dirty mark |
| Persistence.StatePersistence.GetAgentLastRun | internal/runtime/state.go:145-158 | the recorded second of the last run, none at or before the epoch |
| Persistence.CrashLeavesOldOrNew | internal/runtime/state.go:103-111 | at whatever point a save crashes the file is the old or the new one, complete |
| Persistence.FileIsLastCommitted | internal/runtime/state.go:83-113 | over every run with faults and crashes the file holds exactly what was last committed |
| Persistence.CleanMeansSaved | internal/runtime/state.go:49-113 | once a load or save has succeeded, a state that is not dirty is on disk |
| Persistence.CleanIsSavedIffSynced | internal/runtime/state.go:49-113 | a state that is not dirty is on disk exactly if a load or save has succeeded or the disk holds nothing |
| Persistence.FreshProcessIsCleanButEmpty | internal/runtime/state.go:38-46 | before that a clean process can differ from a non-empty file |
| Persistence.StateIsExact | internal/runtime/state.go:116-142 | after any updates an agent's counters, failures in a row and the seconds of its last run and last success are those of its own updates |
| Persistence.FileAfterRound | internal/scheduler/scheduler.go:419-437 | what the file holds after a round, for each outcome of the two summaries |
| Persistence.NoUpdateIsLost | internal/scheduler/scheduler.go:226-228 | whether or not the save fails, updates up to it, those since the dirty check included, are on disk or still marked dirty |
| Persistence.RoundIsDurableIffSaved | internal/scheduler/scheduler.go:419-437 | what is in memory after a round survives a crash exactly when neither summary returns before the save and the save succeeds, or when it was on disk before |
| Persistence.FileHoldsLastSavedRound | internal/scheduler/scheduler.go:419-437 | after any sequence of rounds a new process loads the memory of the last round that saved |
| Persistence.CommittedRunsOnlyGrow | internal/runtime/state.go:49-142 | over every run with faults and crashes, no run count on file goes down as long as no save commits before a load or save has succeeded |
| Persistence.FailedLoadLosesHistory | internal/scheduler/scheduler.go:132-134 | after a failed load a save replaces whatever the file held |
| AgentCaching.AgentCache.GetOrCreate | internal/agent/cache.go:50-85 | a request that finishes does what the specification says for some scan order; within any number of turns it fails to finish only if it has to evict and the empty key is strictly the oldest |
| AgentCaching.AgentCache.Lookup | internal/agent/cache.go:57-70 | a hit is marked and returned; a miss is counted, and an expired entry dropped and counted once more |
| AgentCaching.AgentCache.EvictOldest | internal/agent/cache.go:87-100 | the scan over the map removes what the specification's scan finds |
| AgentCaching.AgentCache.MakeRoom | internal/agent/cache.go:75-77 | at most one turn of the loop evicts, and it is the first unless the empty key is strictly the oldest |
| AgentCaching.AgentCache.CleanupIdle | internal/agent/cache.go:121-133 | exactly the idle entries go, and their number is returned |
| AgentCaching.AgentCache.Remove | internal/agent/cache.go:103-111 | the entry is gone, and the result says whether there was one |
| AgentCaching.ScanFindsOldest | internal/agent/cache.go:87-95 | without the empty key the scan finds a least recently used entry |
| AgentCaching.EvictionFindsOldest | internal/agent/cache.go:87-100 | under any order an eviction removes a least recently used entry exactly if the empty key is not strictly the oldest |
| AgentCaching.StallsDependOnOrder | internal/agent/cache.go:75-100 | some order removes nothing exactly if the empty key is strictly the oldest, and every order exactly if it is the only key |
| AgentCaching.EvictionStalls | internal/agent/cache.go:88-99 | exactly when one turn of the eviction loop removes nothing |
| AgentCaching.EmptyKeyMisleadsEviction | internal/agent/cache.go:88-95 | a cache with the empty key, strictly the oldest, whose newest entry is evicted |
| AgentCaching.Accounting | internal/agent/cache.go:50-133 | over every trace, empty keys included, the size stays bounded, hits and misses equal calls and expiries, and entries are conserved |
| AgentCaching.OpIsBooked | internal/agent/cache.go:50-133 | one operation keeps the cache within its size and changes counters and size as it is booked |
| AgentCaching.ReturnedAgentIsFresh | internal/agent/cache.go:57-84 | a returned agent was made for its own key, at most the TTL ago |
| AgentCaching.FreshEntryIsReturned | internal/agent/cache.go:56-84 | a cached agent made at most the TTL ago is returned, counted as one hit, and nothing is evicted; an older one is made anew and counted as two misses |
| AgentCaching.MissingEntryIsMade | internal/agent/cache.go:70-84 | a request for a key that is not cached counts one miss, and returns and caches what the factory makes |
| AgentCaching.EntriesWereMade | internal/agent/cache.go:59-84 | an entry's agent and age are those of the request that made it, and its use count that of the requests since |
| AgentCaching.CleanupDropsIdle | internal/agent/cache.go:121-133 | an idle cleanup drops an entry exactly if the last request for it is longer ago than allowed |
| AgentCaching.CloseRequestsDoNotExpire | internal/agent/cache.go:59-61 | nothing expires in a trace in which no two requests for one key are further apart than the TTL |
| AgentCaching.LeastRecentlyUsed | internal/agent/cache.go:50-100 | the cached keys are exactly the `maxSize` most recently requested ones |
| AgentCaching.SmallerCacheIsIncluded | internal/agent/cache.go:50-100 | on the same requests a smaller cache's keys are among a larger one's |
| AgentCaching.HitsCarryOver | internal/agent/cache.go:57-68 | a request that hits in the smaller cache hits in the larger |
| AgentCaching.LargerCacheHitsMore | internal/agent/cache.go:50-100 | on the same requests the larger cache has at least as many hits |
| RecentKeys.WindowIsLatest | internal/agent/cache.go:87-100 | the keys of the longest suffix with at most k keys are the k most recently requested ones |
| TokenBuckets.RateLimiter.TryTake | internal/runtime/production.go:183-202 | the locked part of the loop: refill, grant or pause |
| TokenBuckets.RateLimiter.Wait | internal/runtime/production.go:177-212 | a waiter's attempts until it is granted or cancelled, with any attempts of other waiters in between |
| TokenBuckets.StaysInRange | internal/runtime/production.go:183-198 | over every run the tokens stay between zero and the burst |
| TokenBuckets.Conformance | internal/runtime/production.go:177-212 | between any two attempts of any run at most burst + rate * time tokens are granted |
| TokenBuckets.Conservation | internal/runtime/production.go:183-198 | grants and remaining tokens never exceed a full bucket and the refill of the time passed |
| TokenBuckets.RunsCompose | internal/runtime/production.go:182-211 | grants over consecutive parts of a run add up |
| TokenBuckets.WaitingIsRun | internal/runtime/production.go:182-211 | a waiter among others is part of a run and its grant is the last of that run's grants, so that conformance covers it |
| TokenBuckets.LoneWaiter | internal/runtime/production.go:200-210 | a lone waiter is granted exactly if its amount fits, with at most one sleep |
| TokenBuckets.RetryAfterPause | internal/runtime/production.go:200-210 | a retry after the announced pause is granted exactly if the amount fits the bucket |
| TokenBuckets.PauseIsExact | internal/runtime/production.go:200-210 | a lone retry is granted exactly from the end of the announced pause on |
| TokenBuckets.NeverGranted | internal/runtime/production.go:182-211 | more than the burst is never granted, however long the caller waits and whatever others do |
| CircuitBreakers.CircuitBreaker.IsOpen | internal/runtime/production.go:236-249 | the answer, and the clearing of an expired circuit |
| CircuitBreakers.CircuitBreaker.RecordFailure | internal/runtime/production.go:258-265 | one more failure, and the end of the timeout once the threshold is reached |
| CircuitBreakers.CircuitBreaker.RecordSuccess | internal/runtime/production.go:251-256 | the agent is forgotten |
| CircuitBreakers.CircuitBreaker.GetStatus | internal/runtime/production.go:268-285 | with the time read again at each entry, everybody still open at the last reading is listed, nobody closed at the first, and none twice |
| CircuitBreakers.BreakerRefinesLog | internal/runtime/production.go:236-265 | after every log the counter is the streak of failures since the agent last started afresh, and it is open exactly from the threshold on, until the last failure plus the timeout |
| CircuitBreakers.ThresholdMustBePositive | internal/runtime/production.go:258-265 | that correspondence holds exactly for thresholds of at least one |
| CircuitBreakers.OpenIsDecidedByLog | internal/runtime/production.go:236-249 | `IsOpen` is decided by the log alone |
| CircuitBreakers.StatusDisagreesOnlyAtExpiry | internal/runtime/production.go:268-276 | `GetStatus` and `IsOpen` differ exactly at the end of the timeout |
| AuthLimiters.AuthRateLimiter.RecordFailure | internal/httpapi/auth.go:137-160 | the pruned list, its count and the block after a failure |
| AuthLimiters.AuthRateLimiter.IsBlocked | internal/httpapi/auth.go:163-172 | whether the block is still on |
| AuthLimiters.AuthRateLimiter.AuthCheck | internal/httpapi/auth.go:210-226 | the block is asked for before the token; only a failure that was not blocked is logged, after whatever others logged since the question |
| AuthLimiters.PrunedListIsWindow | internal/httpapi/auth.go:141-157 | the pruned list is the part of the full log in the window of the latest failure |
| AuthLimiters.BlockedIsDecidedByLog | internal/httpapi/auth.go:157-172 | an address is blocked exactly while some logged failure was one too many and its block is not over |
| AuthLimiters.AnswerIsDecidedByLog | internal/httpapi/auth.go:210-226 | a request is turned away during the block of one of its address's failures, whatever its token; otherwise the token decides |
| AuthLimiters.ExceedsIsCounted | internal/httpapi/auth.go:147-158 | a failure is one too many exactly if more than maxFails failures of its address happened less than a window before it |
| AuthLimiters.BlocksHoldIffOneAtATime | internal/httpapi/auth.go:210-226 | no failure is recorded during an earned block, in every interleaving of requests that are at most c at a time per address past the question, exactly if c is at most one |
| AuthLimiters.BlocksDoNotOverlap | internal/httpapi/auth.go:210-226 | with one request of each address past the question at a time, however addresses interleave, blocks hold |
| AuthLimiters.BlocksOverlapOnlyByRace | internal/httpapi/auth.go:210-226 | in every interleaving of requests a failure during a block comes from a request let through before the block was earned |
| AuthLimiters.RaceMovesBlock | internal/httpapi/auth.go:210-226 | for all settings, a schedule with two requests at once whose second failure moves the block on |
| AdaptivePlans.ExecutePlan | internal/plan/adaptive.go:78-132 | the recursion terminates for cyclic plans too, with the results and calls of the specification |
| AdaptivePlans.StepFollowsOutcome | internal/plan/adaptive.go:100-119 | from an agent's outcome alone: the step's own result, whether the creator is asked and with what reason, and which plan's result follows one level deeper |
| AdaptivePlans.PlanFollowsSteps | internal/plan/adaptive.go:97-131 | steps take effect one after the other, and the plan reports its goal and all results |
| AdaptivePlans.GetAllOutputs | internal/plan/adaptive.go:27-36 | the outputs of the specification |
| AdaptivePlans.DepthIsNeverExceeded | internal/plan/adaptive.go:85-119 | no node is too deep and none is a depth error, exactly if the call starts within the limit |
| AdaptivePlans.CallsAreBounded | internal/plan/adaptive.go:97-123 | agents are called at most b + b^2 + ... + b^levels times if no plan has more than b steps |
| AdaptivePlans.RelentlessPlansMeetTheBound | internal/plan/adaptive.go:97-123 | plans that always fail use all of that bound, with sub-plans carried by the steps or made by the creator |
| AdaptivePlans.CyclicPlanMeetsTheBound | internal/plan/adaptive.go:97-123 | a single plan that is its own sub-plan, carried or made, uses all of that bound |
| AdaptivePlans.SuccessIsAboutOwnSteps | internal/plan/adaptive.go:100-131 | every step is executed once and in order, and the plan succeeds exactly when its own steps do |
| AdaptivePlans.OutputsArePreorder | internal/plan/adaptive.go:27-36 | the outputs are the non-nil ones of all nodes in preorder |
| Backoffs.DelaysAreBounded | internal/runtime/backoff.go:14-25 | all delays lie within the bounds exactly if the multiplier is at least one |
| Backoffs.DelaysAreOrdered | internal/runtime/backoff.go:14-25 | delays are ordered for any draws exactly if the multiplier is at least 1.25 or the first retry already waits the maximum |
| Backoffs.DelayIsGeometric | internal/runtime/backoff.go:14-25 | without jitter each delay is the one before times the multiplier, up to the maximum; the jitter adds up to a quarter, up to the maximum again |
| Backoffs.DelayIsTruncated | internal/runtime/backoff.go:26 | the delay is its exact value, truncated |
| Backoffs.DelayIsOrdered | internal/runtime/backoff.go:10-27 | under the same condition the truncated delays are ordered too |
| Backoffs.TotalBackoffIsBounded | internal/agent/executor.go:70-76 | however a call goes, its sleeps last at most twice the maximum, for any multiplier, and with one of at least one at least the minimum each |
| SimpleRounds.RunSimpleRound | internal/scheduler/scheduler.go:172-229 | a round executes exactly the agents that are due, in any order of completion, and saves unless both attempts fail |
| SimpleRounds.DueSpecs | internal/scheduler/scheduler.go:173-197 | the due agents, in order |
| SimpleRounds.RunsAreSpaced | internal/scheduler/scheduler.go:189-196 | a run starts at least the interval after the second in which any earlier recorded run finished |
| SimpleRounds.RunsArePunctual | internal/scheduler/scheduler.go:177-197 | from the recorded state and the clock alone: an agent runs in the first round from the end of its interval on, and not before |
| SimpleRounds.LastRunOnlyGrows | internal/runtime/state.go:126-131 | a recorded run is never forgotten |
| SimpleRounds.RoundRunsExactlyTheDue | internal/scheduler/scheduler.go:177-201 | an agent's run count grows in a round, by one, exactly if it is due and its execution leaves a record |
| SimpleRounds.OrderLeavesNoTrace | internal/scheduler/scheduler.go:212-225 | the order in which a round's agents finish does not show in the state |

## Left out

- LLM calls, prompts, agent construction and the self-driven worker: a worker run is an arbitrary outcome.
- `isNonRetryableError` looks at error chains and texts: an attempt's error is already retryable or fatal.
- `ConcurrencyController` and the scheduler's goroutines are a state machine on values, not a class: the
  point is their interleaving, which a sequential method would not show.
- Confluence is for agents whose state is their own, so it does not cover evictions in the agent cache they share.
- Recorder agreement is for calls that do not overlap.
- The summary's merge of metrics, state and circuit data, its success rate and the derived timestamps of a
  record: copying of fields.
- Logging of steps, report files, step timeouts and the contents of an agent's prompt other than the results
  of its dependencies.
- The keyword search that makes a reply "complex": the adaptive executor receives its verdict.
- State encoding: a file holds a complete or a partial snapshot. Pipelines, version and save time are not
  modelled, since nothing depends on them.
- Floating-point rounding, and the truncation of a timer to whole nanoseconds in the token bucket.
- Tokens, exempt paths and client addresses of the authentication check: a request says whether it is valid.
- `createFallbackPlan`, getters and status pages: they would only add easy members.
