# Persys control plane: a verified model

Persys is a set of services around a workload scheduler: a gateway that routes
requests to schedulers, the scheduler's own TLS handling, an automation service
and an AI advisory service.  This project models the parts of them that keep
state across calls or race with each other, and proves what they guarantee over
every input, every run or every interleaving.

`dafny verify dfyconfig.toml` checks the whole project.

## Organisation

| module | models |
|---|---|
| `PoolTypes`, `Merge`, `Routing`, `Pool`, `PoolSteps`, `PoolRuns`, `Failover` | the gateway's scheduler pool: merging discovered addresses, health, candidate order, failover |
| `TlsCache`, `Rotation` | the scheduler's TLS configuration cache against file-by-file certificate replacement, and the rotation loop |
| `LeaderElection` | electors over a database advisory lock, their notifications and the evaluators these start and stop |
| `Cron` | when a cron policy fires |
| `Suggestions`, `MemoryQueue`, `PostgresQueue` | building suggestions and replaying the ones the scheduler could not take |
| `ReplayWindow`, `WebhookJobs`, `WebhookOutcomes`, `WebhookIntake` | webhook replay protection, intake and forwarding with retries |
| `Breaker`, `Lifecycle` | admission to the inference provider, and the life of a recommendation |
| `Text`, `Sorting`, `Int64`, `Wrappers` | Go strings, `sort.SliceStable`, 64-bit durations, optional values |

Objects whose methods update fields are classes; each method's postcondition ties
the new state to a function of the old one, and the lemmas are about those
functions.  Protocols are state machines: one step per critical section, file
operation, database exchange or channel operation, in any order.

Times are integer nanoseconds.  DNS answers, health probes, RPC outcomes, Vault
answers, signature checks, new IDs and clock readings are inputs.  The canonical
keys of an address are a fixed function while a merge runs, the routing hash is
any 32-bit function, the cron library's "next tick" is any function that gives
the least tick strictly after its argument.  Confidence and risk are reals.

## Where the code falls short of the obvious claim

Each entry names the counterexample and, in brackets, the lemma that says exactly
when the claim holds.

- Marking failed schedulers: past the controller, a request whose cluster ID is
  non-empty white space, and not itself the default's ID, selects from the default
  cluster but marks failures under the white-space ID, so failed schedulers stay in
  rotation: `Failover.BlankRequestForgets` [`Failover.FailuresStickIff`].  The
  controller trims every ID (`persys-gateway/controllers/scheduler.controller.go:408-419`),
  so no incoming request does this: `Failover.ResolvedIsWellAddressed`.
- A default cluster that never moves: it moves once when a cluster with the empty ID
  is the default and the configured default is `cluster-discovered`:
  `PoolRuns.DefaultCanMoveAtStart` [`PoolRuns.DefaultStableIff`].
- One merge lists every discovered endpoint: a stale entry can hide its own
  replacement for one merge: `Merge.StaleEntryHidesReplacement`
  [`Merge.ListedIff`, `Merge.SecondMerge`].
- Rotation at four fifths of the lifetime: a certificate valid for more than about
  3.65 years overflows: `Rotation.FiveYearCertificateRotatesAtOnce`
  [`Rotation.RotationPointExact`].
- A written bundle is served: files replaced with equal modification times are not
  noticed: `TlsCache.EqualTimesHideReplacement` [`TlsCache.WriteServedIff`].
- A lock nobody uses can be had: a lost unlock leaves it with a pooled session:
  `LeaderElection.LeakHappens`, `LeaderElection.LeakBlocksElection`
  [`LeaderElection.LockFreeIff`, `LeaderElection.GrantIff`].
- Leader flags exclude each other: a leader whose session died keeps its flag while
  another sets its own: `LeaderElection.FlagsCanOverlap`
  [`LeaderElection.SecondFlagIff`; `LeaderElection.AtMostOneLeader`].
- The evaluator follows leadership: dropped notifications can leave it running
  without a leader: `LeaderElection.EvaluatorCanOutliveLeadership`
  [`LeaderElection.EvaluatorFollowsLeadership`].
- A tick fires once: a clock that steps back makes one fire twice:
  `Cron.ClockStepBackFiresTwice` [`Cron.FiresAgainIff`, `Cron.NoRepeatIff`,
  `Cron.FiresOnceIff`].
- Only ticks fire: an expression that never ticks fires once, because the library
  answers the zero time: `Cron.NeverTickingFiresOnce` [`Cron.FiringsAreTicksIff`].
- A queued suggestion gets its turn: in the in-memory queue failures block the rows
  behind them, unlike in the durable one: `MemoryQueue.FailuresBlockTheQueue`
  [`MemoryQueue.TurnIff`; `PostgresQueue.ReplayFair`].
- No forward beyond the configured retries: the webhook service by itself forwards
  once even when that number is below one: `WebhookJobs.FirstForward`
  [`WebhookJobs.WithinRetriesIff`].  Configuration loading replaces such a number by 5
  (`persys-gateway/config/config.go:196-198`).
- Failed attempts are bounded by the healthy entries: not past the controller, for the
  white-space IDs above: `Failover.BlankRequestsExceedBound`
  [`Failover.FailureBoundIff`].

The automation README says `scale_replicas` is evaluated but not executed; the
code builds and submits such suggestions, and the model follows the code.

## Model

| member | source | states |
|---|---|---|
| `Sorting.StableSortCorrect` | persys-gateway/services/scheduler_pool.go:453 | the sort behind the candidate order is sorted and keeps ties in their order |
| `Sorting.SortedTiesUnique` | persys-gateway/services/scheduler_pool.go:453 | any sorted, stable rearrangement is the same one, so the choice of algorithm does not matter |
| `Sorting.StableSortOrderFree` | persys-gateway/services/scheduler_pool.go:453 | when keys identify values the sort does not depend on the input order |
| `Text.TrimSpaceExact` | persys-gateway/services/scheduler_pool.go:430-436 | trimming removes white space at both ends, all of it and nothing else |
| `Merge.MergedShape` | persys-gateway/services/scheduler_pool.go:169-242 | a merge yields the surviving old entries in order, at most with an empty ID filled, followed by plain new entries for discovered addresses that clash with nothing |
| `Merge.MergedClashFree` | persys-gateway/services/scheduler_pool.go:172-242 | distinct addresses and pairwise disjoint canonical keys are preserved |
| `Merge.MergedKeeps` | persys-gateway/services/scheduler_pool.go:186-238 | at a configured or discovered address already listed, exactly the old entries remain, in order, with their health and leader flags |
| `Merge.MergedDropsExactlyStale` | persys-gateway/services/scheduler_pool.go:215-241 | an old entry survives if and only if it is configured, not created by discovery, or still discovered; nothing else remains |
| `Merge.SecondMerge` | persys-gateway/services/scheduler_pool.go:169-242 | a second merge with the same discovery result only adds entries, and adds none exactly when, for every discovered address, the first input lists it, has none of its keys taken, or shares one with an entry that stays or a newly adopted address |
| `Merge.ListedIff` | persys-gateway/services/scheduler_pool.go:183-241 | after one merge a discovered address is listed, or shares a key with a listed one, exactly under those four conditions on the input |
| `Merge.AdoptAllNew` | persys-gateway/services/scheduler_pool.go:183-213 | adoption appends exactly the greedy choice of discovered addresses that neither the list nor an earlier choice stands for |
| `Merge.MergeFixpoint` | persys-gateway/services/scheduler_pool.go:169-242 | the third merge equals the second |
| `Merge.MergeOnceEnough` | persys-gateway/services/scheduler_pool.go:169-242 | the second merge equals the first when no stale entry shares a canonical key with a discovered address |
| `Merge.StaleEntryHidesReplacement` | persys-gateway/services/scheduler_pool.go:192-239 | a family of inputs where a stale entry suppresses a new address and is dropped in the same merge |
| `Pool.AddKeys` | persys-gateway/services/scheduler_pool.go:208-212 | the key index gains exactly the given keys and never overwrites an earlier owner |
| `Pool.AnyKnown` | persys-gateway/services/scheduler_pool.go:192-198 | a candidate is a duplicate exactly when one of its keys is indexed |
| `Pool.Dedupe` | persys-gateway/services/scheduler_pool.go:556-572 | the discovery list is ascending, without repeats, and holds exactly the trimmed non-blank inputs |
| `Pool.SchedulerPool.constructor` | persys-gateway/services/scheduler_pool.go:88-98 | the pool starts with the configured clusters, a later one replacing an earlier one of the same ID, nothing healthy |
| `PoolSteps.InitialExact` | persys-gateway/services/scheduler_pool.go:88-98 | exactly the configured IDs name clusters, each the last one configured under it, its schedulers in order with their fields |
| `PoolSteps.StrategyWords` | persys-gateway/services/scheduler_pool.go:89-92 | which strategy each configured word means |
| `Pool.SchedulerPool.DefaultClusterId` | persys-gateway/services/scheduler_pool.go:527-542 | the configured default if it names a cluster, else the least cluster ID, else empty |
| `PoolSteps.DefaultExact` | persys-gateway/services/scheduler_pool.go:527-542 | the trimmed configured default if it names a cluster, else the least ID in the map, else empty |
| `Pool.SchedulerPool.AdoptDiscovered` | persys-gateway/services/scheduler_pool.go:172-213 | the two-index pass computes the index-free adoption of every discovered address |
| `Pool.SchedulerPool.DropStale` | persys-gateway/services/scheduler_pool.go:227-239 | the filter loop computes the retained entries |
| `Pool.SchedulerPool.DiscoverAndMerge` | persys-gateway/services/scheduler_pool.go:137-250 | only the target cluster changes, to the merged one; a failed or empty discovery changes nothing |
| `PoolSteps.MergeStepExact` | persys-gateway/services/scheduler_pool.go:137-250 | on the cluster map: a failed or empty discovery changes nothing; otherwise the target is the default cluster or `cluster-discovered`, keeps name and strategy and gets the merge of the whole discovery result, and every other cluster is unchanged; an old entry stays iff not made by discovery, still discovered or configured for that cluster, in order, and new ones follow, neither leader nor healthy |
| `PoolSteps.MergeOrder` | persys-gateway/services/scheduler_pool.go:183-241 | the merged list is the wanted old entries in their order, an empty ID filled only for the last one at a discovered address, followed by one new entry per newly adopted address in the order of discovery |
| `PoolSteps.StaticExact` | persys-gateway/services/scheduler_pool.go:215-225 | an address counts as configured iff some configured cluster of that ID lists it |
| `PoolSteps.DiscoveredIdExact` | persys-gateway/services/scheduler_pool.go:574-577 | the ID of a discovered entry, character by character |
| `Pool.SchedulerPool.RefreshHealth` | persys-gateway/services/scheduler_pool.go:354-378 | every entry of every cluster takes the result of its own probe, and nothing else changes |
| `PoolSteps.RefreshExact` | persys-gateway/services/scheduler_pool.go:354-378 | health and last-seen time come from the entry's own probe; clusters, strategies, order, IDs, addresses and leader flags stay |
| `Pool.SchedulerPool.MarkUnhealthy` | persys-gateway/services/scheduler_pool.go:408-428 | exactly the entries at the address in that cluster lose their health; an unknown cluster changes nothing |
| `PoolSteps.MarkExact` | persys-gateway/services/scheduler_pool.go:408-428 | only the health of entries at the address in that cluster changes |
| `Pool.SchedulerPool.OrderedSchedulers` | persys-gateway/services/scheduler_pool.go:430-495 | the loops compute the candidate order specified in `Routing`, with its three errors |
| `Routing.SelectPermutesHealthy` | persys-gateway/services/scheduler_pool.go:443-495 | selection succeeds exactly when something is healthy and the strategy is known, and lists each healthy entry exactly as often as the cluster does |
| `Routing.LeaderOnlyOrder` | persys-gateway/services/scheduler_pool.go:456-473 | a healthy leader of least ID comes first and the rest ascend by ID; without one everything ascends |
| `Routing.KeyedOrderIsRotation` | persys-gateway/services/scheduler_pool.go:474-505 | sticky and shard turn the ID order by an in-range index that depends on key and count only |
| `Routing.KeyedFirst` | persys-gateway/services/scheduler_pool.go:474-505 | the first candidate is the entry of the ID order at the hash of a non-blank key modulo their number; with a blank key the ID order is unchanged |
| `Routing.IndexByKey` | persys-gateway/services/scheduler_pool.go:544-554 | the index is in range for every key and size |
| `Routing.SelectInsertionOrderFree` | persys-gateway/services/scheduler_pool.go:443-495 | with distinct IDs candidates do not depend on insertion order |
| `PoolRuns.InitialUnprobed` | persys-gateway/services/scheduler_pool.go:88-98 | no configured scheduler starts healthy |
| `PoolRuns.HealthyIsProven` | persys-gateway/services/scheduler_pool.go:137-250 | over every run, a healthy entry was probed as up by the latest refresh, at its last-seen time, and stayed listed and unmarked since |
| `PoolRuns.ProvenIsHealthy` | persys-gateway/services/scheduler_pool.go:354-378 | conversely, an address probed as up stays healthy until dropped, marked or refreshed |
| `PoolRuns.SelectionIsProven` | persys-gateway/services/scheduler_pool.go:430-495 | every scheduler a selection returns has that proof |
| `PoolRuns.DefaultNeverMoves` | persys-gateway/services/scheduler_pool.go:527-542 | once a cluster exists the default is in the map and constant over every run, outside one configuration |
| `PoolRuns.DefaultStableIff` | persys-gateway/services/scheduler_pool.go:150-162 | the default is constant over all runs if and only if that configuration is absent |
| `PoolRuns.DefaultCanMoveAtStart` | persys-gateway/services/scheduler_pool.go:88-98 | a configuration file that has it, whatever schedulers it lists |
| `PoolRuns.BootstrapDefault` | persys-gateway/services/scheduler_pool.go:150-167 | without clusters the first successful merge creates the discovered cluster and makes it the default for good |
| `Failover.ControlClient.InvokeControlRpc` | persys-gateway/services/scheduler_grpc.service.go:98-138 | reply, number of failed attempts and pool are those of walking the candidates to the first success |
| `Failover.ControlClient.TryCandidates` | persys-gateway/services/scheduler_grpc.service.go:108-137 | the loop marks exactly the candidates before the first success and reports the last error |
| `Failover.RequestCost` | persys-gateway/services/scheduler_grpc.service.go:98-138 | for a request that marks the cluster it selects from: failed attempts are paid for by entries turning unhealthy, and every other cluster is untouched |
| `Failover.InvokeSelection` | persys-gateway/services/scheduler_grpc.service.go:98-138 | for every request: it is answered with the response of the first call that succeeds iff there is one among the candidates, with the last error iff all candidates fail, and with the selection's error iff there are none; the fallback for an untried request is unreachable |
| `Failover.InvokeMarks` | persys-gateway/services/scheduler_grpc.service.go:108-132 | in the cluster the request names exactly the entries at the addresses of the candidates tried in vain lose their health; nothing else changes |
| `Failover.AllFailedLeavesNone` | persys-gateway/services/scheduler_grpc.service.go:108-138 | for such a request: when every candidate fails nothing in the target is healthy and the next selection reports it |
| `Failover.FailureBound` | persys-gateway/services/scheduler_grpc.service.go:98-138 | any sequence of such requests, with no refresh or merge in between, fails at most as often on a cluster as it had healthy entries |
| `Failover.MisaddressedRequestForgets` | persys-gateway/services/scheduler_grpc.service.go:99-117 | any other request leaves the cluster it selected from unchanged, however many candidates failed |
| `Failover.FailuresStickIff` | persys-gateway/services/scheduler_grpc.service.go:99-117 | total failure takes the candidates out of rotation if and only if the requested ID is empty, not all white space, or the default ID itself |
| `Failover.FailureBoundIff` | persys-gateway/services/scheduler_grpc.service.go:98-138 | over all sequences of requests for one cluster ID, failed attempts stay within the healthy entries if and only if the ID is empty, not all white space or the default ID, or there is nothing to try |
| `Failover.BlankRequestForgets` | persys-gateway/services/scheduler_grpc.service.go:99-117 | a request for the cluster ID of one blank whose calls all fail and which leaves its only scheduler healthy |
| `Failover.BlankRequestsExceedBound` | persys-gateway/services/scheduler_grpc.service.go:99-117 | two such requests make two failed attempts on a cluster with one healthy entry |
| `Failover.ResolvedIsWellAddressed` | persys-gateway/controllers/scheduler.controller.go:408-419 | every request that comes through the controller marks the cluster it selects from |
| `Failover.ResolveOrder` | persys-gateway/controllers/scheduler.controller.go:408-419 | path parameter before header before query, blank ones skipped |
| `Failover.IncomingCost` | persys-gateway/controllers/scheduler.controller.go:408-419 | for every request through the controller, without condition: failed attempts are paid for by entries turning unhealthy, other clusters are untouched, and total failure leaves no candidate |
| `Failover.IncomingFailureBound` | persys-gateway/controllers/scheduler.controller.go:408-419 | any sequence of requests through the controller fails at most as often on a cluster as it had healthy entries |
| `TlsCache.ServedConfigsAreSound` | persys-scheduler/cmd/scheduler/main.go:225-284 | in every interleaving of calls and renames, with any modification times: a returned configuration pairs a certificate with its own key and a usable CA; a fresh one is at least as new as the files at that call's stats; a hit is at least as new as versions with the same times, and so as those files when no path has had one time twice |
| `TlsCache.QuietCallServesDisk` | persys-scheduler/cmd/scheduler/main.go:225-284 | when no path has had one modification time twice: a call during which no file is replaced, and whose own file operations all work, returns exactly the bundle on disk if it is usable, and otherwise falls back or fails, however many other calls interleave |
| `TlsCache.WarmCallsSucceed` | persys-scheduler/cmd/scheduler/main.go:249-269 | once something is cached and the files exist, no call fails except on a refused stat, whatever the modification times |
| `TlsCache.TraceIsGet` | persys-scheduler/cmd/scheduler/main.go:225-284 | the steps of the interleaving machine, for one call with files changing and operations failing under it, are what `Get` says |
| `TlsCache.QuietIsGet` | persys-scheduler/cmd/scheduler/main.go:225-284 | with an unchanging disk and working operations that is `QuietGet` |
| `TlsCache.DynamicTlsProvider.GetConfig` | persys-scheduler/cmd/scheduler/main.go:225-284 | the object's result and remembered times are those of `Get`, while files change between its stats and loads and any operation may fail |
| `TlsCache.WriteServedIff` | persys-scheduler/internal/auth/vault.go:564-584 | the next undisturbed call serves a complete bundle write if and only if nothing is cached or one of the three modification times differs from the remembered one; otherwise it is a hit on the old configuration |
| `TlsCache.PartialWriteFallsBack` | persys-scheduler/internal/auth/vault.go:574-582 | of a write's intermediate states only the one between key and certificate is unusable, and a warm call bridges it |
| `TlsCache.EqualTimesHideReplacement` | persys-scheduler/cmd/scheduler/main.go:239-247 | a cache filled from disk serves the old configuration as a hit after a write with equal modification times |
| `Rotation.CertManager.WriteCertBundleAtomic` | persys-scheduler/internal/auth/vault.go:564-584 | an invalid bundle touches nothing; otherwise key, certificate and CA are replaced in that order up to the first failure |
| `Rotation.CertManager.IssueAndPersist` | persys-scheduler/internal/auth/vault.go:239-299 | the recorded validity changes exactly when the whole bundle was installed |
| `Rotation.CertManager.NextRenewAt` | persys-scheduler/internal/auth/vault.go:451-466 | the renewal time, with the two clock readings and 64-bit arithmetic of the code |
| `Rotation.CertManager.RotationLoop` | persys-scheduler/internal/auth/vault.go:150-176 | wake-up times, recorded validity and disk after any number of turns |
| `Rotation.RotationPointExact` | persys-scheduler/internal/auth/vault.go:460-461 | the rotation point is four fifths into the lifetime if and only if the lifetime is at most the 64-bit maximum over 80, and then leaves a fifth, rounded up |
| `Rotation.RotationBeforeExpiry` | persys-scheduler/internal/auth/vault.go:460-461 | for every lifetime, overflowing or not, the rotation point lies before expiry |
| `Rotation.FiveYearCertificateRotatesAtOnce` | persys-scheduler/internal/auth/vault.go:460-464 | a five-year lifetime wraps to a rotation point before validity starts |
| `Rotation.AttemptStartsInTime` | persys-scheduler/internal/auth/vault.go:150-164 | for every known validity: attempts wait at least 30 seconds, not before the rotation point, and start before expiry when more than 30 seconds are left |
| `Rotation.WakesAtRotationPoint` | persys-scheduler/internal/auth/vault.go:150-176 | exactly when the loop wakes: at the rotation point, four fifths of a lifetime that does not overflow, while it lies ahead; after 30 seconds once it has passed; after the retry interval without known validity; never sooner than 30 seconds or beyond a 64-bit duration |
| `Rotation.LoopFollowsCertificate` | persys-scheduler/internal/auth/vault.go:150-176 | every turn waits for the certificate installed last before it, or the initial one |
| `Rotation.AttemptsBeforeExpiry` | persys-scheduler/internal/auth/vault.go:150-176 | for every known validity, while every attempt fails and takes at most `d`: attempt `i` starts before expiry whenever `i` times 30 seconds plus `d` is less than what is left at the first one |
| `LeaderElection.RunSafe` | persys-automation/internal/store/leader_elector.go:48-107 | every interleaving keeps the link between leader flags, sessions and the lock |
| `LeaderElection.AtMostOneLeader` | persys-automation/internal/store/leader_elector.go:48-107 | at most one elector has its flag set while its session is alive |
| `LeaderElection.LeadershipLasts` | persys-automation/internal/store/leader_elector.go:54-60 | over every run a leader stays leader on the same session until a health check fails or it is shut down |
| `LeaderElection.RevocationClears` | persys-automation/internal/store/leader_elector.go:54-95 | after a failed check or a shutdown the elector's next step clears flag and connection |
| `LeaderElection.ShutdownRetires` | persys-automation/internal/store/leader_elector.go:28-46 | after a shutdown an elector leads at most until that step |
| `LeaderElection.ShutdownIsFinal` | persys-automation/internal/store/leader_elector.go:28-46 | and never again after it |
| `LeaderElection.FlagsCanOverlap` | persys-automation/internal/store/leader_elector.go:54-60 | the flag alone does not exclude: a run that ends with two flags set |
| `LeaderElection.SecondFlagIff` | persys-automation/internal/store/leader_elector.go:48-107 | in any run that ends with an elector leading on a session and another one idle: the other can come to set its flag, without a step of the first and without that session dying, if and only if the session is already dead |
| `LeaderElection.EvaluatorFollowsLeadership` | persys-automation/cmd/automation/main.go:98-130 | attempted notifications alternate from true, never two evaluators run, and once settled the evaluator agrees with leadership exactly when an even number of the latest notifications was dropped |
| `LeaderElection.EvaluatorCanOutliveLeadership` | persys-automation/internal/store/leader_elector.go:89-107 | a run that ends settled with an evaluator, no leadership and one dropped notification |
| `LeaderElection.PromptConsumerDropsNothing` | persys-automation/internal/store/leader_elector.go:83-106 | if every notification finds the channel empty, none is dropped and the evaluator runs exactly when the elector leads |
| `LeaderElection.LeakBlocksElection` | persys-automation/internal/store/leader_elector.go:97-100 | while a leaked lock's session lives and is not drawn again, nobody leads |
| `LeaderElection.LockFreeIff` | persys-automation/internal/store/leader_elector.go:48-107 | in every run the lock is free if and only if every living session has been reached by as many unlocks as it was granted locks |
| `LeaderElection.GrantIff` | persys-automation/internal/store/leader_elector.go:62-81 | a lock request that reaches the database on a living session is granted if and only if every other living session is in that balance, and otherwise the elector is idle again |
| `LeaderElection.LeakHappens` | persys-automation/internal/store/leader_elector.go:54-100 | a run that leaks the lock |
| `Cron.CronEngine.EvaluateCron` | persys-automation/internal/engine/engine.go:198-217 | whether an evaluation fires and what is remembered |
| `Cron.FiredProjects` | persys-automation/internal/engine/engine.go:373-387 | interleaved policies do not disturb each other |
| `Cron.FiredExactly` | persys-automation/internal/engine/engine.go:207-217 | on any clock, when the library finds a tick at every evaluation: a tick fires exactly when some evaluation falls into the minute it starts; if the clock does not run backwards firings strictly increase |
| `Cron.FiresAgainIff` | persys-automation/internal/engine/engine.go:373-387 | on any clock and for any schedule: a tick fires more than once if and only if it is due, then another one is, then it is again |
| `Cron.NoRepeatIff` | persys-automation/internal/engine/engine.go:207-217 | for policies in any interleaving: no firing repeats if and only if no tick returns in that way |
| `Cron.FiringsAreTicksIff` | persys-automation/internal/engine/engine.go:209-217 | for a lawful schedule, in any interleaving: every firing is a tick if and only if the library finds one at every evaluation from the zero time on, or the zero time is a tick |
| `Cron.FiresOnceIff` | persys-automation/internal/engine/engine.go:198-217 | when the library finds a tick at every evaluation: a tick fires exactly once if and only if some evaluation falls into its minute and it does not return |
| `Cron.CronExactlyOnce` | persys-automation/internal/engine/engine.go:198-217 | for policies in any interleaving, evaluated at most a minute apart on a clock that does not run backwards: every tick between the first and the last evaluation fires exactly once |
| `Cron.NeverTickingFiresOnce` | persys-automation/internal/engine/engine.go:209-217 | an expression that never ticks fires once, at its first evaluation |
| `Cron.ClockStepBackFiresTwice` | persys-automation/internal/engine/engine.go:373-387 | a lawful schedule with an answer at every evaluation fires one tick twice when the clock steps back |
| `Suggestions.BuildSuggestion` | persys-automation/internal/engine/engine.go:274-307 | a suggestion is built exactly for a non-blank target, a known action and, for a desired state, a non-blank one; it carries the policy, the trimmed target and state, the reason and, only when scaling, the replica numbers |
| `Suggestions.ActionWords` | persys-automation/internal/engine/engine.go:287-305 | which action each of the four words means, and that there are no others |
| `Suggestions.RefusalReasons` | persys-automation/internal/engine/engine.go:284-305 | why nothing is built |
| `Suggestions.FailedExact` | persys-automation/internal/store/store.go:199-202 | a failed attempt adds one to a 32-bit count and records error or reason and time; the rest of the row stays |
| `Suggestions.RowExact` | persys-automation/internal/engine/engine.go:252-261 | a new row has no attempts, no error and one time |
| `Suggestions.ActionTypeRoundTrip` | persys-automation/internal/engine/engine.go:309-322 | every action type survives being stored by name |
| `Suggestions.RowRoundTrip` | persys-automation/internal/engine/engine.go:253-262 | a suggestion rebuilt from its row, however often that was retried, is the one built, under the row's ID |
| `Suggestions.RebuildNext` | persys-automation/internal/engine/engine.go:103-113 | the suggestion of the next claimed row joins those rebuilt so far |
| `Suggestions.EventsOrigin` | persys-automation/internal/store/postgres.go:260-316 | in any queue whose events add the arriving row or touch only attempts, last error and update time: after any events a row is one that was there or arrived, up to these three |
| `MemoryQueue.EventOrigin` | persys-automation/internal/store/store.go:159-204 | the in-memory queue is such a queue |
| `PostgresQueue.EventOrigin` | persys-automation/internal/store/postgres.go:260-316 | the durable queue is such a queue |
| `MemoryQueue.Store.Enqueue` | persys-automation/internal/store/store.go:159-168 | appends the stamped row |
| `MemoryQueue.Store.Claim` | persys-automation/internal/store/store.go:170-181 | returns the prefix of the effective batch size |
| `MemoryQueue.Store.Mark` | persys-automation/internal/store/store.go:183-204 | the first row with the ID is removed or gains an attempt; an unknown ID changes nothing |
| `MemoryQueue.ReplayQueuedSuggestions` | persys-automation/internal/engine/engine.go:97-125 | claims a prefix, submits for each claimed row the suggestion rebuilt from it, and marks every claimed row in order |
| `MemoryQueue.SubmittedIsBuilt` | persys-automation/internal/engine/engine.go:97-125 | after any enqueues, marks and replays what is submitted under an ID is the suggestion that was built for it |
| `MemoryQueue.RoundMovesUp` | persys-automation/internal/store/store.go:170-204 | over a round, with arrivals at any point, a row behind the batch moves up by exactly the number of accepted rows |
| `MemoryQueue.TurnIff` | persys-automation/internal/store/store.go:170-204 | until it is accepted, the row that started at position `r` is claimed in round `j` if and only if `r` less the rows accepted before that round is below the limit, whatever arrives meanwhile |
| `MemoryQueue.DispatchAction` | persys-automation/internal/engine/engine.go:236-272 | only an unreachable scheduler queues a row, and that row carries the suggestion that was built |
| `MemoryQueue.ReplayConserves` | persys-automation/internal/store/store.go:170-204 | one replay removes exactly the accepted rows of the claimed prefix, adds an attempt to the others, keeps order and leaves the rest |
| `MemoryQueue.SurvivorsExact` | persys-automation/internal/store/store.go:183-204 | the rows left of the claimed prefix are those of the refused submissions, in order, each with its own failure recorded |
| `MemoryQueue.FailuresBlockTheQueue` | persys-automation/internal/store/store.go:170-204 | while submissions fail, no number of replays gets past the front rows |
| `PostgresQueue.Table.Enqueue` | persys-automation/internal/store/postgres.go:260-272 | inserts a row with no attempts and no error |
| `PostgresQueue.Table.Claim` | persys-automation/internal/store/postgres.go:274-299 | returns the oldest rows by update time up to the effective limit |
| `PostgresQueue.Table.MarkResult` | persys-automation/internal/store/postgres.go:301-316 | deletes the row or records the failed attempt with a new update time |
| `PostgresQueue.ReplayQueuedSuggestions` | persys-automation/internal/engine/engine.go:97-125 | claims the oldest rows, submits for each the suggestion rebuilt from it, and marks every claimed row in order |
| `PostgresQueue.SubmittedIsBuilt` | persys-automation/internal/engine/engine.go:97-125 | after any enqueues, marks and replays what is submitted under an ID is the suggestion that was built for it |
| `PostgresQueue.ClaimedByRank` | persys-automation/internal/store/postgres.go:278-282 | a row is claimed exactly when fewer than the limit were updated before it |
| `PostgresQueue.ClaimOldestFirst` | persys-automation/internal/store/postgres.go:274-299 | a claim takes the oldest rows, oldest first, as many as asked for and fifty when asked for none |
| `PostgresQueue.RoundMovesUp` | persys-automation/internal/engine/engine.go:102-124 | over a round a row behind the batch moves up by exactly the batch, whatever fails and whatever arrives |
| `PostgresQueue.ReplayFair` | persys-automation/internal/store/postgres.go:274-316 | a row of rank `r` is submitted in round `r / limit`, counting from zero, and in no earlier one |
| `ReplayWindow.DeliveryCache.ReserveDelivery` | persys-gateway/services/webhook.service.go:218-234 | purges, refuses a remembered ID and otherwise remembers it at this time |
| `ReplayWindow.CacheIsWindow` | persys-gateway/services/webhook.service.go:222-233 | the cache is exactly the accepted IDs, with their times, no older than the window |
| `ReplayWindow.WindowRefinesRule` | persys-gateway/services/webhook.service.go:218-234 | every answer is that of the cache-free rule, so two acceptances of one ID are more than the window apart |
| `ReplayWindow.RejectionsDoNotExtend` | persys-gateway/services/webhook.service.go:229-231 | refused repeats never extend the window |
| `WebhookIntake.Intake.HandleGitHubWebhook` | persys-gateway/services/webhook.service.go:156-197 | exactly which requests are answered 200, 401 and 409, when a delivery ID is reserved, and that only an accepted request submits a job to the forwarding machine |
| `WebhookIntake.DeliveriesAreSpread` | persys-gateway/services/webhook.service.go:103-234 | over every interleaving of requests, workers and timers, two jobs for one delivery ID stem from reservations more than the replay window apart, and each is sent at most max(1, retries) times |
| `WebhookJobs.BackoffForAttempt` | persys-gateway/services/webhook.service.go:148-154 | the doubling loop yields base times two to the attempt less one exactly when that fits 64 bits |
| `WebhookJobs.PlacedStep` | persys-gateway/services/webhook.service.go:103-146 | every step keeps each buffered job in exactly one place |
| `WebhookJobs.JobLife` | persys-gateway/services/webhook.service.go:103-154 | over every interleaving a job is in one place, is sent at most max(1, retries) times with at least the backoff in between, fails for good only after exactly that many, and its record reads accepted, retrying 1, 2, ..., then one end |
| `WebhookOutcomes.OutcomesDecide` | persys-gateway/services/webhook.service.go:114-146 | over every run, by the outcomes of a job's forwards: all but the last are failures; it is finished as forwarded iff the last one acted on is a success, as failed iff the allowed number were failures; nothing is sent after a success |
| `WebhookOutcomes.RetryDue` | persys-gateway/services/webhook.service.go:128-146 | a failed job waits exactly the backoff of its number of failures from the report of the last one |
| `WebhookOutcomes.FirstInFirstOut` | persys-gateway/services/webhook.service.go:103-112 | what was put into the queue is what was taken followed by what is queued, in order |
| `WebhookOutcomes.SubmitExact` | persys-gateway/services/webhook.service.go:179-194 | a submission is recorded as accepted and queued last, or with 1024 jobs queued also recorded as turned away |
| `WebhookJobs.FirstForward` | persys-gateway/services/webhook.service.go:114-122 | a run in which a job is forwarded once, whatever the number of retries |
| `WebhookJobs.WithinRetriesIff` | persys-gateway/services/webhook.service.go:114-126 | over all runs no job is forwarded more often than configured if and only if the configured number is at least one |
| `WebhookJobs.NeverStuck` | persys-gateway/services/webhook.service.go:103-146 | in every reachable state with an unfinished job some worker or timer step is possible, at once or after time passes, also when the queue is full |
| `WebhookJobs.DoneIsFinal` | persys-gateway/services/webhook.service.go:117-126 | after its end nothing more is sent or persisted for a job |
| `Breaker.Engine.Admit` | persys-intelligence/internal/inference/engine.go:50-62 | the verdict is circuit open, rate limited or admitted as `Judge` decides, and only an admission moves the last-call time |
| `Breaker.Engine.RecordFailure` | persys-intelligence/internal/inference/engine.go:87-94 | counts the failure and opens at the threshold |
| `Breaker.Engine.RecordSuccess` | persys-intelligence/internal/inference/engine.go:96-101 | closes and resets |
| `Breaker.GateRefinesRule` | persys-intelligence/internal/inference/engine.go:50-101 | over every interleaving the three fields decide as the whole history would, and the counter is the failures since the last success |
| `Breaker.AdmissionsAreSpread` | persys-intelligence/internal/inference/engine.go:57-61 | any `k` admitted calls span at least `k - 1` intervals |
| `Breaker.OpenUntilCooldown` | persys-intelligence/internal/inference/engine.go:53-56 | from a threshold-reaching failure to the end of its cooldown nothing is admitted without a success in between |
| `Breaker.FailedTrialReopens` | persys-intelligence/internal/inference/engine.go:87-94 | once tripped, every failure before a success trips again |
| `Lifecycle.Store.Create` | persys-intelligence/internal/store/store.go:39-53 | stores the stamped record and lists it last |
| `Lifecycle.Store.UpdateStatus` | persys-intelligence/internal/store/store.go:84-99 | moves the record if it exists and the transition is allowed, else reports which was wrong |
| `Lifecycle.Store.Replace` | persys-intelligence/internal/store/store.go:101-111 | overwrites an existing record |
| `Lifecycle.Store.List` | persys-intelligence/internal/store/store.go:65-82 | the filtered listing, newest first |
| `Lifecycle.ListingExact` | persys-intelligence/internal/store/store.go:65-82 | a listing holds exactly the matching records |
| `Lifecycle.ListingNewestFirst` | persys-intelligence/internal/store/store.go:65-82 | a listing runs from the newest to the oldest record |
| `Lifecycle.StatusWords` | persys-intelligence/internal/store/store.go:65-82 | what the filters match |
| `Lifecycle.Service.Evaluate` | persys-intelligence/internal/service/service.go:97-174 | a failed extraction changes nothing; otherwise the returned records with all their fields, the store, the metrics and the inference status are those of the whole batch |
| `Lifecycle.Service.Gate` | persys-intelligence/internal/service/service.go:120-155 | status, decision, explanation and the rejection metric of one record follow the policy gate |
| `Lifecycle.NewRecExact` | persys-intelligence/internal/service/service.go:122-155 | every field of a new record, without the gate, approved by it and rejected by it |
| `Lifecycle.RefusalExact` | persys-intelligence/internal/service/service.go:221-232 | the gate refuses iff confidence, risk or kind is out of bounds, and names the first of them |
| `Lifecycle.Service.EvaluateOne` | persys-intelligence/internal/service/service.go:106-161 | one snapshot creates its record and counts it, or nothing |
| `Lifecycle.CountsExact` | persys-intelligence/internal/service/service.go:104-119 | each snapshot is counted under what inference answered |
| `Lifecycle.InferenceStatusExact` | persys-intelligence/internal/service/service.go:163-171 | which counts give which status |
| `Lifecycle.CreatedAreStored` | persys-intelligence/internal/service/service.go:143-166 | the records an evaluation returns are in the store as returned |
| `Lifecycle.ItemsPartition` | persys-intelligence/internal/service/service.go:106-167 | every snapshot is counted once as generated, unavailable or failed |
| `Lifecycle.Service.Move` | persys-intelligence/internal/service/service.go:180-207 | approve, reject and apply: status, decision and metric change together or not at all |
| `Lifecycle.MoveExact` | persys-intelligence/internal/store/store.go:136-147 | from each status exactly the listed moves succeed, with the record and metrics that result |
| `Lifecycle.CountersAndDecisionsAgree` | persys-intelligence/internal/service/service.go:97-232 | over every run metrics equal record counts, decisions agree with statuses, policy decisions follow the gate, and under the gate nothing waits for review and nothing that fails it is approved or applied |
| `Lifecycle.TerminalIsFinal` | persys-intelligence/internal/store/store.go:132-147 | a rejected or applied record never changes again |
| `Lifecycle.AppliedWasApproved` | persys-intelligence/internal/store/store.go:136-147 | an applied record was approved at an earlier point of the run |

## Left out

- Discovery itself (SRV and host lookups, canonical keys from DNS), health dialling, gRPC, Vault, Postgres, Mongo, JSON and HMAC: libraries, represented by their outcomes.
- `ResolveClusterForRepository`, `Snapshot`, metrics text, logging, tracing and configuration loading: only easy members.
- The other policy conditions of the automation engine (PromQL, cluster summary, pipeline status) and the JSON parsing of conditions and actions: single comparisons over library results.
- The bounded audit log and the policy table of the automation stores: easy members.
- `ReplayWindow.CacheIsWindow`: states its claim for a clock that does not run backwards, as do `WindowRefinesRule` and `RejectionsDoNotExtend`.
- `Breaker.GateRefinesRule`: states its claim for a clock that does not run backwards, as do `AdmissionsAreSpread` and `OpenUntilCooldown`.
- `Failover.FailureBound`: does not cover health refreshes between the requests, which may make an entry healthy again.
- `Lifecycle.CountersAndDecisionsAgree`: assumes that generated record IDs are new, as does `CreatedAreStored`.
- `Lifecycle.Service.Evaluate`: takes the sanitised snapshot and the suggested parameters as text and number formatting as a parameter; the failure and latency metrics of inference are not modelled; the in-memory store never refuses a record.
- `MemoryQueue.SubmittedIsBuilt`: assumes that generated row IDs are new, as does its durable counterpart.
- `PostgresQueue.ReplayFair`: assumes distinct, increasing update times and marks that succeed, as ties in `ORDER BY updated_at` and ignored database errors have no defined order.
- `LeaderElection.EvaluatorFollowsLeadership`: does not cover the second call of `stopEvaluator` from the main goroutine at process exit.
- `Lifecycle.Service.Move`: is one step; two lifecycle calls that interleave between the status write and the decision write are not modelled.
- `Cron.CronEngine.EvaluateCron`: is one step; evaluations that overlap between the check and the mark are not modelled.
- `WebhookJobs.JobLife`: does not cover cancellation, which drops jobs waiting for a retry; its record is the sequence of writes, of which the database keeps the latest, and writes do not fail.
- `Rotation.AttemptsBeforeExpiry`: assumes the first wait is within the 64-bit range of a duration, that is, the rotation point is less than about 292 years away.
- `Suggestions.BuildSuggestion`: takes the library's lower-casing as a parameter; `RefusalReasons` leaves out the quoted action type that follows the text for an unknown action.
- The recovery loop after a failed first issuance, certificate identity checks and SAN detection: not part of this model.
- Pipelines, secrets, federation, OAuth and generated protobuf code: not part of this model.
