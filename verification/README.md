# Verified models of APICerberus

A Dafny 4.11 model of the parts of the API gateway APICerberus whose guarantees range over whole
runs, whole inputs or every interleaving, with proofs of those guarantees. `dafny verify
dfyconfig.toml` verifies all of it.

| module | what it models |
|---|---|
| `LineDiff` | the line diff of `config diff`: a longest-common-subsequence table and a greedy walk over it |
| `Targets`, `Rotation`, `ConsistentHash`, `LeastConn`, `Adaptive` | the load balancers, as classes with the source's fields |
| `Health`, `Pools`, `HealthLayers` | active and passive health checking of a target, pools with their balancers, and the checker over all of them |
| `Planner`, `PlannedSteps`, `MergeTree`, `Executor`, `Outcomes`, `Repeats`, `Races`, `PlannedQueries`, `QueryTexts` | federated query plans with their query texts, the merging of step results into one tree, the sequential and parallel executors, and which queries they answer alike |
| `RealtimeStream`, `StreamRuns`, `StreamOutcomes`, `Frames` | the metric ring buffer, the polling event stream over it, runs in which pushes and polls overlap, and the WebSocket frame header |
| `TimeSeries`, `StatusCounts`, `EngineProtocol`, `EngineOrder` | the per-minute stores, simple and batched, the status counters under concurrent workers, and the asynchronous engine in front of them |
| `Coalescing` | joining of identical in-flight requests |
| `RateLimits`, `Logins` | the admin server's limiters of credit operations and failed logins, and logins that overlap |
| `Retention`, `RetentionRuns` | archiving and deletion of expired audit entries |
| `Hub` | the WebSocket hub's index of topics and connections |
| `Masking` | masking of JSON fields |
| `Basics`, `Text`, `Cycle`, `Occurrences`, `Json` | shared types, text trimming, remainders, counting |

Code that updates fields or loops is modelled by classes and methods; each is proved against a
function of the old state, and the promises are proved about those functions and about runs of
them. Clocks, random numbers, checksums and answers of subgraphs are parameters; where a call can
fail, it may fail at any point. Durations and times are whole nanoseconds. Concurrency is modelled
by interleaving the source's critical sections, atomic operations and channel operations in any
order; a class shows the calls of its methods one after the other.

The hardest results, one per part:

- The diff is optimal against every script, and the least of the optimal ones (`LineDiff.WalkIsOptimal`,
  `LineDiff.WalkIsLeastOptimal`).
- Bisection, wrap-around and skipping on the hash ring are the textbook lookup on the filtered ring, so
  removing a target moves only its own keys (`ConsistentHash.RemovalRemapsOnlyItsKeys`).
- Weighted rotation is fair in every window, least-connections counters stay within the requests in
  flight in every run, and within one of each other (`Rotation.WeightedFairness`,
  `LeastConn.RunsKeepAccount`, `LeastConn.RunsStayLevel`).
- Passive health goes down exactly with enough errors in the window and comes up exactly with enough
  successes in a row, and each target of the checker follows its own events alone
  (`Health.PassiveDownIff`, `Health.PassiveUpIff`, `HealthLayers.TargetsKeepApart`).
- Masking path by path is a one-pass redaction, whatever the order (`Masking.MaskingIsRedaction`).
- A parallel run completes exactly when awaited steps answer, and leaves the sequential executor's data
  (`Outcomes.CompletesIffDependenciesAnswer`, `Outcomes.ParallelAgreesWithSequential`).
- Polls whose loads are fresh deliver the pushes in order and once, without a gap exactly at the stated
  rate (`StreamOutcomes.RunDelivers`, `StreamOutcomes.NoGapIff`).
- Batching does not change the time series, every bucket summarises just its minute's metrics whatever
  expires, and no interleaving of the engine loses count of a metric or, with one worker, their order
  (`TimeSeries.BatchingAgrees`, `TimeSeries.EveryBucketSummarises`, `EngineProtocol.RunsConserve`,
  `EngineOrder.OneWorkerKeepsOrder`).
- In every run a request joins another exactly within the window of its key's last leader
  (`Coalescing.GetWaitsIff`).

Eleven promises turn out not to hold of the code as it stands. The model keeps the code, shows how each
one breaks, and proves the exact condition under which it holds:

- Checker, pools and balancers agree on every target in every run if and only if no two upstreams
  report one target key to one pool (`HealthLayers.RunsAgreeIffSeparate`); a configuration in which two
  do is in `HealthLayers.SharedByConfiguration`.
- The owner of a key on the hash ring is determined by the targets if and only if no two targets have
  virtual nodes with one hash (`ConsistentHash.DeterminedIffNoTies`), and two targets listed under one
  key always do (`ConsistentHash.SameKeyTies`).
- Both executors answer a planned query alike if and only if equal ids belong to equal steps, only
  entity fields have steps below them, and whatever lies below a step comes again after it
  (`PlannedQueries.PlannedAgreeIff`). Where names have no line breaks the last condition follows from
  the others (`QueryTexts.PlainQueriesAgreeIff`). A field selected under two aliases with different
  arguments breaks the first (`QueryTexts.AliasedFieldsCollide`).
- Polls deliver every visible new item, in every run of overlapping pushes and polls, if and only if
  each load from the last delivered index on comes after the store of its own item and before any other
  store into that slot (`StreamRuns.RunsDeliverIff`). An item stored after a poll has passed its index
  is not delivered by the next one either (`StreamOutcomes.LateStoreIsLost`).
- Stop, documented as graceful, records every counted metric that is not dropped if and only if nothing
  is queued and no call is under way when it closes the stop channel, or the queue has no room and calls
  do not wait (`EngineProtocol.StopIsGracefulIff`).
- A status code is counted completely by concurrent workers if and only if none looks for the counter
  while another is about to store the first (`StatusCounts.NothingLostIff`).
- Coalesced callers get their own leader's outcome if and only if no request of their key is evicted
  for its age (`Coalescing.ServedIffUndisturbed`).
- The credit limiter does not count operations per minute, as its name says, but per burst
  (`RateLimits.CreditAnswer`, `RateLimits.SteadyUseIsRefused`).
- Five failed logins do not close a round: each login that passed the gate before the fifth was recorded
  may add one (`Logins.RoundsAreBounded`), and all of them can (`Logins.AllUnderwayGetThrough`). With
  logins of an address one at a time the limits hold (`Logins.RunsLetEightThrough`).
- Without failures the archiving loop ends in success if and only if every expired id is neither empty
  nor has white space around it (`Retention.LoopSucceedsIff`). An entry with another id survives every
  pass, and a batch of such entries may repeat for ever (`Retention.StuckBatchRepeats`).
- The hub's index lists exactly what connections hold if and only if no connection subscribes before
  its registration is handled and none registers again with fewer topics
  (`Hub.RunsExactIffNoLeaks`).

## Model

| member | source | states |
|---|---|---|
| `LineDiff.UnifiedDiff` | internal/cli/cmd_config_extra.go:128-173 | the output turns one file into the other, keeps a longest common subsequence, and no script whatsoever that does so has fewer changed lines |
| `LineDiff.FillTable` | internal/cli/cmd_config_extra.go:129-145 | every cell of the table holds the longest-common-subsequence length of the two suffixes |
| `LineDiff.WalkTable` | internal/cli/cmd_config_extra.go:147-172 | the walk over a filled table yields the specified script |
| `LineDiff.ConversionShape` | internal/cli/cmd_config_extra.go:128-173 | of any script between two files: its kept lines are a common subsequence, at most as long as the table says, and fix the number of changed lines |
| `LineDiff.CommonSubsequenceBound` | internal/cli/cmd_config_extra.go:136-145 | no common subsequence is longer than the table's entry |
| `LineDiff.WalkConverts` | internal/cli/cmd_config_extra.go:147-172 | the walk's unchanged and deleted lines spell the old file, its unchanged and inserted lines the new one, and it keeps as many lines as the table promises |
| `LineDiff.WalkIsOptimal` | internal/cli/cmd_config_extra.go:128-173 | optimality of the walk against all scripts |
| `LineDiff.WalkIsLeastOptimal` | internal/cli/cmd_config_extra.go:150-172 | among all cheapest scripts the walk is the least when keeping precedes deleting and deleting precedes inserting, so the output is fully determined |
| `Targets.CarriedLookup` | internal/gateway/balancer.go:75-94 | replacing the target list keeps the flag of known keys, starts new keys healthy and forgets the others |
| `Targets.CarryHealth` | internal/gateway/balancer.go:79-92 | the loop computes the carried health map |
| `Targets.FilterHealthy` | internal/gateway/balancer.go:107-120 | the loop selects the healthy targets in list order |
| `Targets.HealthyMembers` | internal/gateway/balancer.go:107-120 | a target is selected if and only if it is listed and not marked unhealthy |
| `Targets.KeyByTrimming` | internal/gateway/balancer.go:297-302 | a target goes by its id unless trimming leaves nothing of it, then by its address |
| `Text.TrimIs` | internal/gateway/balancer.go:297-302 | trimming takes white space off both ends, and all of it |
| `Rotation.ClampedWeight` | internal/gateway/balancer.go:190-197 | weights below 1 count as 1, above 1000 as 1000, others as they are |
| `Rotation.FullRotation` | internal/gateway/balancer.go:65-73 | as many consecutive selections as the pool is long choose every pool element, from any cursor |
| `Rotation.ExpandedShare` | internal/gateway/balancer.go:178-203 | a healthy target occurs in the expanded pool its clamped weight times per listing, an unhealthy one never |
| `Rotation.WeightedFairness` | internal/gateway/balancer.go:136-144 | in any window of calls, from any cursor, a target gets exactly its weight per whole rotation and at most one more rotation's worth in a partial one |
| `Rotation.RoundRobinIsAllOnes` | internal/gateway/balancer.go:65-73 | plain round robin is the weighted one with weights at most one |
| `Rotation.WeightedRoundRobin.Next` | internal/gateway/balancer.go:136-144 | selects the pool element at the cursor's remainder; no healthy target means none and an unmoved cursor |
| `Rotation.WeightedRoundRobin.UpdateTargets` | internal/gateway/balancer.go:146-165 | replaces the targets and carries health over |
| `Rotation.WeightedRoundRobin.ExpandedHealthyTargets` | internal/gateway/balancer.go:178-203 | the nested loops compute the expanded pool |
| `Rotation.WeightedRoundRobin.Window` | internal/gateway/balancer.go:136-144 | the fairness of any run of calls of the class itself |
| `Rotation.RoundRobin.Next` | internal/gateway/balancer.go:65-73 | selects the healthy target at the cursor's remainder |
| `Rotation.RoundRobin.UpdateTargets` | internal/gateway/balancer.go:75-94 | replaces the targets and carries health over |
| `ConsistentHash.Balancer.constructor` | internal/gateway/balancer_extra.go:279-283 | builds a ring of 120 virtual nodes per target |
| `ConsistentHash.Balancer.Next` | internal/gateway/balancer_extra.go:285-317 | bisection, wrap-around and the skip of unhealthy nodes give the textbook owner on the ring without unhealthy nodes, for the checksum of the client's address whatever the path; without one, of the trimmed path; with neither, of the word default |
| `ConsistentHash.Balancer.UpdateTargets` | internal/gateway/balancer_extra.go:319-338 | the ring is again a sorted arrangement of exactly the targets' virtual nodes |
| `ConsistentHash.Balancer.RebuildRing` | internal/gateway/balancer_extra.go:351-370 | rebuilds a valid ring, with 120 replicas if there was no positive number of them |
| `ConsistentHash.Search` | internal/gateway/balancer_extra.go:300-302 | bisection finds the first node at or after the hash |
| `ConsistentHash.FirstHealthyFrom` | internal/gateway/balancer_extra.go:307-316 | the walk finds the first healthy node clockwise, if there is one |
| `ConsistentHash.BuildTokens` | internal/gateway/balancer_extra.go:355-365 | the loops generate the virtual nodes of all targets |
| `ConsistentHash.TokenNodes` | internal/gateway/balancer_extra.go:355-365 | each target contributes its replicas from zero on, each hashed from the target's key and the replica's number |
| `Text.ItoaDenotes` | internal/gateway/balancer_extra.go:359 | the decimal text of a replica's number reads back as that number |
| `ConsistentHash.SortByHash` | internal/gateway/balancer_extra.go:366-369 | the result is sorted and a permutation |
| `ConsistentHash.OwnerIsFirstHealthyClockwise` | internal/gateway/balancer_extra.go:300-316 | the first healthy node clockwise is the owner on the filtered ring |
| `ConsistentHash.RingsAgree` | internal/gateway/balancer_extra.go:366-369 | without ties every sorted arrangement of the same nodes maps every hash alike |
| `ConsistentHash.TiesAreAmbiguous` | internal/gateway/balancer_extra.go:366-369 | with a tie between two targets the unstable sort may change an owner |
| `ConsistentHash.DeterminedIffNoTies` | internal/gateway/balancer_extra.go:351-370 | the mapping is determined by the nodes if and only if there are no ties |
| `ConsistentHash.SameKeyTies` | internal/gateway/balancer_extra.go:355-365 | two different targets listed under one key tie for every checksum |
| `ConsistentHash.SameKeyIsAmbiguous` | internal/gateway/balancer_extra.go:351-370 | so with such a list the owner of a routing key, the text of the targets' first virtual node, depends on how the sort orders equal hashes |
| `ConsistentHash.MarkDownRemapsOnlyItsKeys` | internal/gateway/balancer_extra.go:307-316 | marking a target unhealthy moves only the keys it owned, and none stay with it |
| `ConsistentHash.MarkUpRestores` | internal/gateway/balancer_extra.go:340-347 | marking it healthy again restores the ring in use |
| `ConsistentHash.RemovalIsMarkDown` | internal/gateway/balancer_extra.go:319-338 | removing a target from the list equals marking it unhealthy, for every key |
| `ConsistentHash.RemovalRemapsOnlyItsKeys` | internal/gateway/balancer_extra.go:319-338 | removal moves only the keys the target owned |
| `ConsistentHash.ReinsertionRestores` | internal/gateway/balancer_extra.go:319-338 | putting it back restores the mapping exactly, with the target counted as healthy |
| `LeastConn.ScanTargets` | internal/gateway/balancer_extra.go:39-58 | the loop finds the candidates among the healthy targets |
| `LeastConn.CandidatesAreLeastLoaded` | internal/gateway/balancer_extra.go:39-58 | the candidates are exactly the targets with the least load |
| `LeastConn.Balancer.Next` | internal/gateway/balancer_extra.go:35-67 | selects a least loaded healthy target in rotation and counts it |
| `LeastConn.Balancer.UpdateTargets` | internal/gateway/balancer_extra.go:69-94 | keeps the counters of known keys and forgets the others |
| `LeastConn.CarriedActiveCount` | internal/gateway/balancer_extra.go:69-94 | a counter survives if and only if its key is listed, unchanged |
| `LeastConn.Balancer.Done` | internal/gateway/balancer_extra.go:105-114 | releases one request, never below zero |
| `LeastConn.StepKeepsAccount` | internal/gateway/balancer_extra.go:35-114 | each step keeps every counter between zero and the requests in flight |
| `LeastConn.RunsKeepAccount` | internal/gateway/balancer_extra.go:35-114 | so it is in every run, across target updates and selections made by other strategies |
| `LeastConn.MatchedRunsAreExact` | internal/gateway/balancer_extra.go:35-114 | in runs without target updates and foreign selections the counters are the requests in flight |
| `LeastConn.SelectionKeepsLevel` | internal/gateway/balancer_extra.go:35-67 | a selection from counters within one of each other leaves them within one of each other |
| `LeastConn.RunsStayLevel` | internal/gateway/balancer_extra.go:35-67 | after n selections from level counters over m distinct keys each has n / m or one more |
| `Adaptive.Smoothed` | internal/gateway/balancer_extra.go:477-486 | the truncated weighted mean, which lies between the old value and the observation |
| `Adaptive.FastestShareLatency` | internal/gateway/balancer_extra.go:388-432 | the targets kept by the scan are measured and equally fast |
| `Adaptive.FastestIsLeast` | internal/gateway/balancer_extra.go:388-432 | no measured target is faster, and equally fast ones are kept |
| `Adaptive.FastestIff` | internal/gateway/balancer_extra.go:388-432 | a target is kept if and only if it is measured and no measured one of the pool is faster |
| `Adaptive.LeastLatency.Next` | internal/gateway/balancer_extra.go:388-432 | rotates among the fastest measured healthy targets, or among all healthy ones if none is measured |
| `Adaptive.LeastLatency.UpdateTargets` | internal/gateway/balancer_extra.go:434-461 | keeps measurements of known keys only |
| `Adaptive.CarriedLatencyLookup` | internal/gateway/balancer_extra.go:434-461 | a measurement survives if and only if its key is listed, unchanged |
| `Adaptive.LeastLatency.ReportHealth` | internal/gateway/balancer_extra.go:463-487 | updates one flag and one smoothed latency |
| `Adaptive.Balancer.constructor` | internal/gateway/balancer_extra.go:503-510 | the three inner balancers start in agreement |
| `Adaptive.Balancer.CurrentMode` | internal/gateway/balancer_extra.go:557-571 | least connections from twenty reports on of which a quarter failed, else least latency from a mean of 200 ms on, else round robin |
| `Adaptive.Balancer.Next` | internal/gateway/balancer_extra.go:512-521 | so is the inner balancer that decides, and the others are untouched; a target comes back if and only if one is healthy; connection counters stay within the requests in flight |
| `Adaptive.Balancer.UpdateTargets` | internal/gateway/balancer_extra.go:523-527 | targets and health of the inner balancers stay equal |
| `Adaptive.Balancer.Tally` | internal/gateway/balancer_extra.go:530-546 | failures never exceed reports, also when both are halved |
| `Adaptive.TalliesAre` | internal/gateway/balancer_extra.go:530-546 | in every run of reports both counts are exact up to fifty thousand and never exceed it; the next report halves both |
| `Adaptive.Balancer.ReportHealth` | internal/gateway/balancer_extra.go:529-551 | all three inner health maps change alike |
| `Adaptive.Balancer.Done` | internal/gateway/balancer_extra.go:553-555 | releases one request, in flight or not, and keeps the account |
| `Health.DerivePassiveConfig` | internal/gateway/health.go:297-320 | thresholds are positive with defaults 3 and 2; the window is the 64-bit product of interval and threshold, at least 200 ms, and 30 s if the product is not positive |
| `Health.PruneOldErrors` | internal/gateway/health.go:322-340 | drops the prefix of times before the window |
| `Health.PruneFilters` | internal/gateway/health.go:322-340 | on ascending times that is the same as filtering |
| `Health.StoredErrors` | internal/gateway/health.go:226-295 | in every run the stored times are the errors since the last passive recovery that lay in the window at the last passive event |
| `Health.PassiveDownIff` | internal/gateway/health.go:226-260 | an error takes a target down if and only if it was up and the window now holds at least the threshold of such errors |
| `Health.PassiveUpIff` | internal/gateway/health.go:263-295 | a success brings a target up if and only if it was down and, this one included, the threshold of successes has come since the last passive error; the errors are then forgotten |
| `Health.RunsKeepOneStreak` | internal/gateway/health.go:155-191 | in every run at most one of the two streak counters is non-zero |
| `Health.StreaksAreTrailing` | internal/gateway/health.go:171-184 | while only probes report, the counters are the lengths of the last streak of results |
| `Health.ActiveFlipIff` | internal/gateway/health.go:171-190 | then a target comes up or goes down exactly when the threshold of probes in a row is reached |
| `Health.RunsAreStamped` | internal/gateway/health.go:155-295 | in every run the record has the time and latency of the last probe or turn of its flag, and the streak counter of what turned it |
| `Pools.NewBalancer` | internal/gateway/balancer.go:24-49 | each algorithm gets its own kind of balancer, and every health map of it, for the adaptive one all three, has each target healthy |
| `Pools.ReportTo` | internal/gateway/balancer.go:275 | a report changes every health map of the balancer alike, whichever of the six kinds it is |
| `Pools.UpdateBalancer` | internal/gateway/balancer.go:256 | so does a new target list |
| `Pools.UpstreamPool.constructor` | internal/gateway/balancer.go:213-224 | pool and balancer start with equal health maps |
| `Pools.UpstreamPool.UpdateTargets` | internal/gateway/balancer.go:251-269 | and keep them equal when the targets change |
| `Pools.UpstreamPool.ReportHealth` | internal/gateway/balancer.go:271-276 | and when a flag changes |
| `HealthLayers.BuildUpstreamPools` | internal/gateway/server.go:911-923 | two names have one pool if and only if one upstream was filed last under both, by name or by id |
| `HealthLayers.WatchTargets` | internal/gateway/health.go:62-72 | a new upstream watches exactly its target keys, all healthy in checker, pool and balancer, and no flag anywhere goes down |
| `HealthLayers.ReportToPool` | internal/gateway/health.go:186-190 | a report reaches one pool and its balancer, under all its names, and no other |
| `HealthLayers.Checker.constructor` | internal/gateway/health.go:48-76 | checker, pools and balancers start in agreement, every record healthy, with counters at zero and no passive events |
| `HealthLayers.Checker.LayersAgree` | internal/gateway/health.go:48-76 | whenever checker and pools agree, every health map in every balancer holds the checker's flag |
| `HealthLayers.Checker.ApplyHealthResult` | internal/gateway/health.go:155-191 | the new state of all layers, whatever they were; from agreement they still agree if and only if the probe turns no flag or no other upstream reports the key to the same pool |
| `HealthLayers.Checker.ReportError` | internal/gateway/health.go:226-260 | the same for passive errors |
| `HealthLayers.Checker.ReportSuccess` | internal/gateway/health.go:263-295 | the same for passive successes |
| `HealthLayers.Checker.Commit` | internal/gateway/health.go:186-190 | the new record is stored and a turned flag reported, once |
| `HealthLayers.TargetsKeepApart` | internal/gateway/health.go:155-295 | in every run of the checker the record of each target is that of a target alone with its own events, so the results about one target hold of each |
| `HealthLayers.CallAgreesIff` | internal/gateway/health.go:155-191 | the condition for one call, on the layers as values |
| `HealthLayers.SharedTargetBreaks` | internal/gateway/health.go:155-191 | a target that two upstreams report to one pool is brought out of step by probes alone |
| `HealthLayers.RunsAgreeIffSeparate` | internal/gateway/health.go:155-295 | every run of probes, errors and successes keeps all layers agreed if and only if no two upstreams report one target key to one pool |
| `HealthLayers.SharedByConfiguration` | internal/gateway/server.go:911-923 | an upstream whose id is the name of an earlier one shares its pool, so a common target key is not separate |
| `Masking.MaskBody` | internal/audit/masker.go:118-144 | the path loop computes the one-pass redaction of the set of paths |
| `Masking.MaskExtendsRedaction` | internal/audit/masker.go:154-174 | masking one more path extends the redaction by that path |
| `Masking.MaskingIsRedaction` | internal/audit/masker.go:134-136 | masking path by path is the one-pass redaction |
| `Masking.OrderIsIrrelevant` | internal/audit/masker.go:134-136 | any order and repetition of the paths gives the same document, prefix-related paths included |
| `Masking.MaskingTwiceIsMaskingOnce` | internal/audit/masker.go:134-136 | masking is idempotent |
| `Masking.RedactionAt` | internal/audit/masker.go:154-174 | at every place: gone below a replaced field, the replacement where a path reaches, unchanged elsewhere |
| `Masking.MaskingAt` | internal/audit/masker.go:118-144 | the same of the masker itself |
| `MergeTree.MergesCommute` | internal/federation/executor.go:521-555 | merges at paths neither of which leads to the other commute |
| `MergeTree.CommuteIffApart` | internal/federation/executor.go:521-555 | they commute for all documents and results only then |
| `MergeTree.PrefixesDoNotCommute` | internal/federation/executor.go:521-555 | otherwise results exist whose order shows |
| `MergeTree.MergeStores` | internal/federation/executor.go:521-555 | a reachable path afterwards holds the result on top of what was there; an unreachable one leaves the document unchanged |
| `MergeTree.MergeKeepsOthers` | internal/federation/executor.go:521-555 | values at paths apart from it stay |
| `MergeTree.MergeTwice` | internal/federation/executor.go:521-555 | merging a result again changes nothing |
| `MergeTree.MergeAbove` | internal/federation/executor.go:521-555 | a merge further up either overwrites an earlier one or commutes with it |
| `Planner.MakePlan` | internal/federation/planner.go:43-70 | the plan is well formed if the schemas know every selected field; otherwise the first in query order that they do not know is reported |
| `Planner.PlanAll` | internal/federation/planner.go:56-62 | the operation loop collects the steps or stops at the first field that no schema knows |
| `Planner.FindSubgraphForField` | internal/federation/planner.go:150-174 | finds a subgraph of an entity whose schema has a type of that name, else the first subgraph that lists the field under its named and present query type; finds none if and only if there is neither |
| `Planner.ResolvesIff` | internal/federation/planner.go:150-174 | the same condition on the schemas is what planning goes by |
| `QueryTexts.OneFieldPlannedIff` | internal/federation/planner.go:43-97 | so the query of one field is planned as its one step, or that field is reported |
| `Planner.PathOrderIsIDOrder` | internal/federation/planner.go:89-97 | the id of a field is a proper prefix of the ids below it, even if ids collide |
| `Planner.PlanFieldLayered` | internal/federation/planner.go:89-147 | the steps of a field depend only on earlier steps of the same plan, by proper prefixes |
| `Planner.PlannedStepsAreLayered` | internal/federation/planner.go:73-86 | so do the steps of every planned query |
| `Planner.LayeredPlanIsWellFormed` | internal/federation/planner.go:64-70 | every dependency names an existing step by a proper prefix, so there is no cycle |
| `PlannedSteps.PlannedStepsAre` | internal/federation/planner.go:89-147 | a plan has exactly one step per selected field at any depth, in query order, with its path and id, waiting for exactly the entity fields above it, innermost first |
| `Planner.PlannedEntitiesAreAwaited` | internal/federation/planner.go:99-123 | all steps below an entity field wait for its step |
| `Planner.PlannedIffKnown` | internal/federation/planner.go:73-174 | planning succeeds if and only if the schemas know every selected field at any depth, by a type or by a query field; otherwise it reports the first in query order that they do not know |
| `PlannedSteps.AllPathsClosed` | internal/federation/planner.go:89-147 | the field above a selected field is selected |
| `PlannedSteps.PlannedStepsAsk` | internal/federation/planner.go:177-241 | each step asks with the text of its field: for an entity field the names of the fields below it, for another its arguments and its whole selection |
| `PlannedSteps.AllChildren` | internal/federation/planner.go:89-147 | every field directly below a selected field follows it in the plan |
| `PlannedSteps.AllParents` | internal/federation/planner.go:89-147 | every step's path ends with its field's name, and is that of a top-level field or of one directly below another selected field |
| `Executor.GatherData` | internal/federation/executor.go:371-381 | the loop gathers the results of the dependencies |
| `Executor.LastSupplierWins` | internal/federation/executor.go:371-381 | of several dependencies that supply a field the last one counts |
| `Executor.UnsuppliedIsMissing` | internal/federation/executor.go:371-381 | nothing else is passed on |
| `Executor.Execute` | internal/federation/executor.go:360-401 | runs the steps in plan order, going on after failures |
| `Executor.PendingSteps` | internal/federation/executor.go:569-571 | one pending step per distinct id, the last one listed |
| `Executor.RunBatch` | internal/federation/executor.go:607-647 | whatever order a round's steps complete in, each runs once after its dependencies, and the pending set shrinks by the round |
| `Executor.ExecuteParallel` | internal/federation/executor.go:558-651 | every distinct id runs exactly once after its dependencies, or the run is stuck with nothing ready |
| `Executor.CompletionKeepsRound` | internal/federation/executor.go:628-642 | one completion keeps the round's invariant and makes nothing unready |
| `Outcomes.LegalIsDepsFirst` | internal/federation/executor.go:577-605 | in a parallel run dependencies come first |
| `Outcomes.OrdersRecordOutcomes` | internal/federation/executor.go:360-401 | any dependencies-first order records for each step the one outcome it must have |
| `Outcomes.StuckOnFailure` | internal/federation/executor.go:598-602 | behind a deadlock is always a failed step for which another one waits |
| `Outcomes.CompletesIffDependenciesAnswer` | internal/federation/executor.go:558-651 | the deadlock error is returned if and only if some step that another one waits for fails; never when all succeed |
| `Outcomes.OrdersAgree` | internal/federation/executor.go:521-555 | two orders of the same steps that order conflicting paths alike leave the same data |
| `Outcomes.ParallelAgreesWithSequential` | internal/federation/executor.go:558-651 | every completed parallel run leaves the data, results and failures of the sequential one if steps with conflicting paths are ordered by dependencies |
| `Outcomes.UnorderedConflictsRace` | internal/federation/executor.go:607-647 | without that condition two completion orders can leave different data |
| `Repeats.LastOnesDecide` | internal/federation/executor.go:360-401 | of a step that the sequential executor runs several times only the last run matters, if whatever lies below it comes again after it |
| `Repeats.RepeatingPlansAgree` | internal/federation/executor.go:558-651 | plans with repeated steps are answered alike if steps wait for those above them and whatever lies below a step comes again after it |
| `Races.CollidingStepShows` | internal/federation/executor.go:569-571 | a step whose id stands for a later step never runs in parallel, and its answer shows in the sequential data alone |
| `Races.MissedRepeatShows` | internal/federation/executor.go:360-401 | a step that comes again without one below it covers that one's answer in the sequential data alone |
| `Races.RunsCanComplete` | internal/federation/executor.go:574-651 | when every subgraph answers, every partial run can be completed |
| `PlannedQueries.PlannedQueriesAgree` | internal/federation/planner.go:89-147 | a planned query that meets the three conditions leaves the same data, results and failures in both executors |
| `PlannedQueries.ScalarNestRaces` | internal/federation/planner.go:124-143 | a step below that of a field that is no entity: answers and a completion order exist that leave other data than the sequential executor |
| `PlannedQueries.PlannedAgreeIff` | internal/federation/executor.go:558-651 | every planned query is answered alike, for all answers and completion orders, if and only if equal ids belong to equal steps, only entity fields have steps below them, and whatever lies below a step comes again after it |
| `PlannedQueries.QueriesAgreeIff` | internal/federation/executor.go:558-651 | with distinct ids the second condition decides |
| `QueryTexts.PlainQueriesAgreeIff` | internal/federation/planner.go:177-241 | without line breaks in names the first two conditions imply the third, as equal query texts select equal fields |
| `QueryTexts.SameLines` | internal/federation/planner.go:186-188 | the text of an entity query determines the fields selected below it |
| `QueryTexts.FieldQueryReads` | internal/federation/planner.go:198-241 | the text of the query of a field that is no entity determines its name, its arguments and its whole selection |
| `QueryTexts.NestedScalarRaces` | internal/federation/planner.go:124-143 | the query of one field below another that is no entity is answered differently |
| `QueryTexts.OtherTextCollides` | internal/federation/planner.go:89-147 | so is every query that selects a field twice with different texts |
| `QueryTexts.AliasedFieldsCollide` | internal/federation/planner.go:198-222 | in particular a field that is no entity under two aliases with different arguments |
| `QueryTexts.BareEntityCollides` | internal/federation/planner.go:177-195 | and an entity field selected once with a field below it and once without |
| `QueryTexts.AliasedEntitiesAgree` | internal/federation/planner.go:177-195 | an entity field under two aliases makes one step twice, whatever the arguments, and both executors agree on it |
| `RealtimeStream.RingBuffer.Reserve` | internal/analytics/engine.go:194 | takes the next index; no slot changes |
| `RealtimeStream.RingBuffer.Store` | internal/analytics/engine.go:195-197 | the slot of the index holds its item from then on |
| `RealtimeStream.RingBuffer.Push` | internal/analytics/engine.go:190-198 | both, one after the other |
| `RealtimeStream.RingBuffer.Snapshot` | internal/analytics/engine.go:200-227 | what the slots of the newest indices hold, newest first, empty ones skipped: as many as were reserved, fit and are asked for |
| `RealtimeStream.HeldIffFresh` | internal/analytics/engine.go:217-225 | a slot holds an index's own item if and only if that was stored and nothing was stored into the slot since |
| `RealtimeStream.FreshViewIsNewest` | internal/analytics/engine.go:217-225 | if every load finds its own item the snapshot is the newest items |
| `RealtimeStream.Stream.CollectEvents` | internal/admin/ws.go:352-394 | returns the found items up to the remembered signature, oldest first, and remembers the newest of them |
| `RealtimeStream.TakeUnseen` | internal/admin/ws.go:366-373 | the scan stops at the remembered signature |
| `RealtimeStream.ReverseAll` | internal/admin/ws.go:378-390 | events are delivered oldest first |
| `RealtimeStream.PollDeliversIff` | internal/admin/ws.go:352-394 | a poll that finds the newest items delivers exactly the new ones if and only if none of them carries the remembered signature |
| `RealtimeStream.PollDelivers` | internal/admin/ws.go:352-394 | with distinct signatures it does |
| `StreamRuns.FoundExactlyIff` | internal/analytics/engine.go:204-225 | a poll finds exactly the indices after the last delivered one if and only if those loads and that of the last delivered one are fresh |
| `StreamRuns.PollExactIff` | internal/admin/ws.go:352-394 | with distinct signatures it delivers exactly what is due if and only if they are |
| `StreamRuns.RunsDeliverIff` | internal/analytics/engine.go:190-227 | in every interleaving of reservations, stores and a poller's loads every poll delivers what is due if and only if every load from the last delivered index on is fresh |
| `StreamRuns.QuietRunsAreFresh` | internal/analytics/engine.go:190-227 | so it is when pushes take turns and no poll overlaps one |
| `StreamOutcomes.RunDelivers` | internal/admin/ws.go:352-394 | over any run of fresh polls the events are a duplicate-free subsequence of the items in the order of their indices |
| `StreamOutcomes.NoGapIff` | internal/admin/ws.go:352-394 | and nothing reserved after the first poll is missed if and only if at most a window of items is reserved between polls |
| `StreamOutcomes.LateStoreIsLost` | internal/analytics/engine.go:194-197 | of two overlapping pushes the one stored after a poll is delivered neither by that poll nor by the next |
| `StreamOutcomes.OldItemComesAgain` | internal/analytics/engine.go:217-225 | on a full ring an index that is reserved and not yet stored makes a poll deliver the item of a lap ago again |
| `Frames.WriteHeader` | internal/admin/ws.go:477-498 | the header followed by the payload is decoded to the payload by section 5.2 of RFC 6455 |
| `Frames.FrameRoundTrip` | internal/admin/ws.go:468-505 | decoding undoes framing for every payload length, across all three length forms |
| `Frames.ReadIffWritten` | internal/admin/ws.go:468-505 | a receiver by section 5.2 of RFC 6455 takes exactly the frames that are written |
| `Frames.FramesAreUnambiguous` | internal/admin/ws.go:468-505 | equal frames have equal payloads |
| `TimeSeries.TimeSeriesStore.Record` | internal/analytics/engine.go:261-317 | updates the bucket of the metric's minute, found by its bounds in nanoseconds, sampling latencies above ten thousand; every other bucket stays as it is, except that a cleanup that is due removes exactly those that start before the minute of now less the retention |
| `TimeSeries.Add` | internal/analytics/engine.go:291-310 | the bucket gains one request with its error, latency, sample, status code, bytes and credits |
| `TimeSeries.MinuteIff` | internal/analytics/engine.go:270 | a time belongs to the k-th minute if and only if it lies in the k-th stretch of 60,000,000,000 ns |
| `TimeSeries.ExpiredIff` | internal/analytics/engine.go:354-368 | a cleanup keeps a bucket if and only if it does not start before the minute of now less the retention |
| `TimeSeries.OptimizedTimeSeriesStore.RecordBatch` | internal/analytics/optimized_engine.go:389-410 | adds each minute's group to its bucket, whatever the order of the groups, then expires |
| `TimeSeries.Group` | internal/analytics/optimized_engine.go:394-399 | groups are the batch's metrics that fall between the bounds of each minute, in batch order |
| `TimeSeries.RecordGroups` | internal/analytics/optimized_engine.go:401-404 | the order in which groups are recorded does not matter |
| `TimeSeries.RecordToBucket` | internal/analytics/optimized_engine.go:413-481 | the bucket gains the group's totals, and its latencies sampled against the new total |
| `TimeSeries.CountAll` | internal/analytics/optimized_engine.go:437-464 | summing a group and adding it once equals counting its metrics one by one |
| `TimeSeries.SampleAll` | internal/analytics/optimized_engine.go:466-480 | below the cap all latencies are kept in order; above it the drawn slot is replaced or nothing |
| `TimeSeries.CountersAreTotals` | internal/analytics/engine.go:291-310 | each counter of a bucket is the number or the sum over its metrics of just that field, and each status code is counted as often as it occurs |
| `TimeSeries.SampledMatches` | internal/analytics/engine.go:296-304 | below the cap the samples are all latencies in order, at the cap their number stays |
| `TimeSeries.SampledSlot` | internal/analytics/engine.go:296-304 | at the cap of ten thousand a roll replaces the slot it names and no other |
| `TimeSeries.SimpleStoreHolds` | internal/analytics/engine.go:261-317 | recorded one by one, every minute's bucket is the summary of exactly its metrics |
| `TimeSeries.EveryBucketSummarises` | internal/analytics/engine.go:261-368 | in every run, whatever expires and however full the store gets, each bucket counts and sums exactly the metrics of its minute recorded since it was last missing |
| `TimeSeries.BatchStoreHolds` | internal/analytics/optimized_engine.go:389-481 | so it is however the sequence is batched |
| `TimeSeries.EveryBatchedBucketSummarises` | internal/analytics/optimized_engine.go:389-481 | the same of the batching store |
| `TimeSeries.BatchingAgrees` | internal/analytics/optimized_engine.go:389-481 | both stores have the same minutes, counters and number of samples, and the same samples below the cap |
| `StatusCounts.ReadingIsBounded` | internal/analytics/optimized_engine.go:450-460 | with workers interleaved in any way a status code is never reported more often than recorded |
| `StatusCounts.NothingLostIff` | internal/analytics/optimized_engine.go:450-460 | all recordings are reported if and only if no worker looked for the counter between another one's failed look and its store |
| `StatusCounts.TwoLooksLoseOne` | internal/analytics/optimized_engine.go:450-460 | two workers that both look first lose one of two recordings |
| `EngineProtocol.RunsConserve` | internal/analytics/optimized_engine.go:145-195 | in every interleaving the counted metrics are exactly those dropped, abandoned, in a call, blocked, queued, held by a worker or in the ring; the ring is the time series plus running flushes |
| `EngineProtocol.NothingRecordedTwice` | internal/analytics/optimized_engine.go:234-266 | nothing is in the ring more often than counted, nor in the time series more often than in the ring |
| `EngineOrder.RunsAreBounded` | internal/analytics/optimized_engine.go:145-266 | in every interleaving the queue keeps to its size, and each worker's batch, what is already flushed of it included, to the batch size |
| `EngineOrder.BatchesFill` | internal/analytics/optimized_engine.go:248-253 | any batch up to that size can be collected |
| `EngineOrder.FlushIsWhole` | internal/analytics/optimized_engine.go:183-195 | a flush is of a batch that is not empty and records all of it, in order |
| `EngineOrder.FirstInFirstOut` | internal/analytics/optimized_engine.go:145-180 | metrics leave for the workers, however many, in the order of their arrival |
| `EngineOrder.OneWorkerKeepsOrder` | internal/analytics/optimized_engine.go:183-266 | with one worker the time series, the running flush, the batch and the queue together are what arrived, in order |
| `EngineProtocol.CallKeepsBalance` | internal/analytics/optimized_engine.go:145-180 | in each step of Record, what the callers lose of a metric the queue gains |
| `EngineProtocol.WorkerKeepsBalance` | internal/analytics/optimized_engine.go:183-195 | in each receive, push and flush, what the queue loses the workers and the ring gain |
| `EngineProtocol.HandoverKeepsBalance` | internal/analytics/optimized_engine.go:162-179 | so it is when an unbuffered queue hands a metric from caller to worker |
| `EngineProtocol.RunsCount` | internal/analytics/optimized_engine.go:157-172 | the two counters are the numbers of counted and of dropped metrics |
| `EngineProtocol.QuietAccount` | internal/analytics/optimized_engine.go:329-344 | once quiet, counted requests are those dropped, given up, left in the queue or recorded, and ring and time series hold the same metrics |
| `EngineProtocol.StopIsGracefulIff` | internal/analytics/optimized_engine.go:329-344 | at the moment the stop channel closes: however the engine winds down, every counted metric not dropped is recorded, if and only if nothing is queued and no call is under way, or the queue has no room and calls do not wait |
| `EngineProtocol.WindsDownWithLoss` | internal/analytics/optimized_engine.go:234-266 | from any other state after that, a way to wind down that loses a counted metric |
| `EngineProtocol.QueuedMetricIsLost` | internal/analytics/optimized_engine.go:329-344 | in particular a metric queued just before Stop can be lost, with any number of workers |
| `Coalescing.Pool.Get` | internal/gateway/optimized_proxy.go:122-152 | the caller waits if and only if a request of its key is filed and less than the window old; otherwise it leads a new one and evicts the filed one |
| `Coalescing.Pool.Take` | internal/gateway/optimized_proxy.go:155-163 | the filed request is unfinished and leaves the map |
| `Coalescing.Pool.Close` | internal/gateway/optimized_proxy.go:165-169 | the request is closed, once |
| `Coalescing.GetWaitsIff` | internal/gateway/optimized_proxy.go:122-152 | in every run a caller waits if and only if the last leader of its key came less than the window ago and nobody has taken that request; otherwise it leads |
| `Coalescing.EvictedIff` | internal/gateway/optimized_proxy.go:130-142 | a request is evicted if and only if a caller of its key comes the window or more after its creation and finds it still filed |
| `Coalescing.WaitersAreCounted` | internal/gateway/optimized_proxy.go:134-137 | a request counts its leader and everybody who joined it |
| `Coalescing.RunsAreSound` | internal/gateway/optimized_proxy.go:122-187 | in every interleaving no done channel is closed twice, pending requests are unfinished and filed under their key, and evicted ones are never closed |
| `Coalescing.RunsFollow` | internal/gateway/optimized_proxy.go:334-397 | every request of a key without evictions is at the stage of the leader that created it |
| `Coalescing.WaitersSeeTheirLeader` | internal/gateway/optimized_proxy.go:338-351 | a waiter released on such a key sees its own leader's outcome |
| `Coalescing.ServedIffUndisturbed` | internal/gateway/optimized_proxy.go:334-397 | when all leaders are done, all requests of a key got their own outcome if and only if none was evicted |
| `Coalescing.SlowLeaderMisleads` | internal/gateway/optimized_proxy.go:130-142 | with a slow leader one waiter gets another leader's outcome and one waits for ever |
| `RateLimits.CreditLimiter.CheckCreditRateLimit` | internal/admin/admin_helpers.go:353-382 | counts the operation, also when refusing it, and refuses above thirty |
| `RateLimits.CreditLimiter.CleanupCreditEntries` | internal/admin/admin_helpers.go:385-395 | removes exactly the entries unused for more than five minutes |
| `RateLimits.CreditAnswer` | internal/admin/admin_helpers.go:353-395 | in every run, cleanups included, an operation is refused if and only if it and the thirty before it are at most a minute apart each |
| `RateLimits.CreditCleanupIsInvisible` | internal/admin/admin_helpers.go:385-395 | a cleanup inserted anywhere changes no later answer |
| `RateLimits.ThirtyAMinute` | internal/admin/server.go:82 | of operations at given times at most thirty in any one minute are not the end of a burst of more than thirty |
| `RateLimits.RunsAllowThirtyAMinute` | internal/admin/admin_helpers.go:353-395 | in every run, cleanups and other keys included, the limiter lets at most thirty operations of a key through in any one minute |
| `RateLimits.SteadyUseIsRefused` | internal/admin/admin_helpers.go:368-380 | a run with one operation every fifty seconds is refused at the thirty-first |
| `RateLimits.AuthLimiter.RateLimitInfo` | internal/admin/admin_helpers.go:253-283 | answers without changing anything: limited are a blocked address until thirty minutes after its last failure and one with five failures until fifteen minutes after its first; the waiting time is what is left, in seconds rounded up |
| `RateLimits.AuthLimiter.RecordFailedAuth` | internal/admin/admin_helpers.go:286-310 | adds the failure to the round or starts a new one |
| `RateLimits.AuthLimiter.ClearFailedAuth` | internal/admin/admin_helpers.go:313-318 | forgets the address |
| `RateLimits.AuthLimiter.CleanupAttempts` | internal/admin/admin_helpers.go:338-348 | removes exactly the entries unused for more than thirty minutes |
| `RateLimits.AuthAnswer` | internal/admin/admin_helpers.go:253-348 | in every run, cleanups included, an address is limited if and only if its round has five failures and the last is at most half an hour old; the waiting time is what is left, rounded up |
| `RateLimits.AuthCleanupIsInvisible` | internal/admin/admin_helpers.go:338-348 | a cleanup inserted anywhere changes no later answer |
| `Logins.RoundsAreBounded` | internal/admin/token.go:177-196 | in every run, overlapping logins, cleanups and other addresses included, a round has at most five failures and one for each login under way at the fifth, until it is a quarter of an hour old or a login succeeds |
| `Logins.AllUnderwayGetThrough` | internal/admin/token.go:177-196 | any number of logins that pass the gate before the first failure is recorded can all fail in one round |
| `Logins.RoundsAreShort` | internal/admin/admin_helpers.go:286-310 | of failures none of which comes while the address is limited, a round has at most five, and half an hour follows the fifth |
| `Logins.EightAQuarter` | internal/admin/admin_helpers.go:286-310 | any nine of them span more than fifteen minutes |
| `Logins.RunsLetEightThrough` | internal/admin/token.go:177-196 | both hold of every run in which the logins of the address do not overlap, cleanups and other addresses included |
| `Logins.EightGetThrough` | internal/admin/admin_helpers.go:290-299 | a run of such logins in which eight fail within fifteen minutes |
| `Retention.AuditRepo.DeleteByIDs` | internal/store/audit_repo.go:164-197 | deletes the rows whose ids are the trimmed ones given and counts them, or fails and changes nothing |
| `Retention.AuditRepo.DeleteOlderThan` | internal/store/audit_retention.go:92-140 | whatever fails only entries of the scope that are older than the cutoff go, and the count is theirs; on success all of them. An entry is of a route if its id or its name is the key, but for the case of ASCII letters |
| `Retention.AuditRepo.ListOlderThan` | internal/store/audit_retention.go:64-90 | lists the oldest entries of the scope that are older than the cutoff, each once, oldest first, all of them or as many as the limit allows, or fails |
| `Retention.MatchesIff` | internal/store/audit_retention.go:24 | lower-casing and comparing is spelling the key, letter by letter, by the route's id or by its name |
| `Retention.TidyDeletesTheListed` | internal/audit/retention.go:168-182 | a pass over entries with trimmed or blank ids deletes exactly the identified ones |
| `Retention.UntrimmedPass` | internal/audit/retention.go:168-182 | a pass over an untrimmed id leaves that entry and deletes the row with the trimmed id, archived or not |
| `Retention.PassIsExactIffTidy` | internal/audit/retention.go:168-182 | of any selection of expired entries a pass deletes exactly the identified ones, if and only if all expired ids are trimmed or blank |
| `Retention.LoopSucceedsIff` | internal/audit/retention.go:153-184 | a loop without failures can end in success if and only if every expired id is trimmed and not empty; and then it does, whatever is listed, within as many passes as there are expired entries |
| `Retention.ImproperStaysForGood` | internal/audit/retention.go:153-184 | an expired entry with another id survives every pass of every loop |
| `Retention.PassProgressIff` | internal/store/audit_repo.go:164-197 | a pass changes the store if and only if some listed id, trimmed, is the id of a row |
| `Retention.StuckBatchRepeats` | internal/audit/retention.go:153-184 | a batch without such an id repeats for ever: after any number of passes the store is the same and the lister may return the batch again |
| `Retention.OneUntrimmedEntryRepeats` | internal/audit/retention.go:153-184 | so it is with a single expired entry whose id starts with a blank |
| `RetentionRuns.RetentionScheduler.ArchiveEntries` | internal/audit/retention.go:186-225 | success means all entries are in the archive; a failure may leave some there |
| `RetentionRuns.RetentionScheduler.ArchiveAndDelete` | internal/audit/retention.go:153-184 | for any ids and any number of batches: rows go only by the trimmed id of an archived entry and the count is theirs; success means no expired entry is left and every expired id was proper; with tidy expired ids the rows gone were expired and archived themselves, and the loop stops within as many batches as there were expired entries, and one |
| `RetentionRuns.RetentionScheduler.CollectIDs` | internal/audit/retention.go:168-173 | the non-blank ids of the batch |
| `RetentionRuns.RetentionScheduler.DeleteWithOptionalArchive` | internal/audit/retention.go:146-151 | the same with archiving; without it only expired entries go, and on success all of them |
| `RetentionRuns.RetentionScheduler.RunOverrides` | internal/audit/retention.go:97-118 | the same for all override passes; on success no entry is left whose route goes by an override key and that is older than that override's days |
| `RetentionRuns.RetentionScheduler.RunOnce` | internal/audit/retention.go:90-133 | for any ids: with archiving rows go only by the trimmed id of an archived entry; on success no entry is left that is older, in nanoseconds, than the days of an override its route goes by, or, going by none, than the default's, and the count is exact; with tidy ids of stale entries an entry is left if and only if it is not stale, those gone are archived, and the run stops |
| `Hub.WebSocketHub.DoSubscribe` | internal/admin/ws_hub.go:206-220 | enters the pair, and the topic if the connection is registered; keeps no empty set |
| `Hub.WebSocketHub.DoUnsubscribe` | internal/admin/ws_hub.go:223-239 | removes both; keeps no empty set |
| `Hub.WebSocketHub.HandleRegister` | internal/admin/ws_hub.go:291-306 | enters the connection under all its topics |
| `Hub.WebSocketHub.HandleUnregister` | internal/admin/ws_hub.go:309-333 | removes a known connection and the topics it holds, nothing else |
| `Hub.WebSocketHub.RefreshPing` | internal/admin/ws_hub.go:498-501 | a read refreshes the connection's last sign of life and nothing else |
| `Hub.WebSocketHub.HandleBroadcast` | internal/admin/ws_hub.go:336-360 | targets the registered subscribers of the topic other than the excluded one |
| `Hub.WebSocketHub.CleanupStaleConnections` | internal/admin/ws_hub.go:405-443 | removes exactly the connections silent for more than two minutes, with their topics |
| `Hub.RunsCover` | internal/admin/ws_hub.go:206-443 | in every run a registered connection is listed under every topic it holds |
| `Hub.RunsAreAsTold` | internal/admin/ws_hub.go:206-443 | in every run a connection is registered, with the topics it holds and is listed under, as its own registrations, reads and topics tell: a cleanup removes it if and only if its last registration or read is more than two minutes old |
| `Hub.StepExactIff` | internal/admin/ws_hub.go:206-443 | from an exact index a step leads to an exact index if and only if it is not a subscription of an unregistered connection or a repeated registration with fewer topics |
| `Hub.RunsExactIffNoLeaks` | internal/admin/ws_hub.go:206-443 | the index is exact throughout a run if and only if no step is such |
| `Hub.BroadcastReaches` | internal/admin/ws_hub.go:336-360 | a broadcast reaches all registered holders of the topic but the excluded one, and without such steps nobody else |
| `Hub.EarlySubscriptionLeaks` | internal/admin/ws_hub.go:206-220 | a subscription that overtakes its queued registration gets the connection messages on a topic it does not hold, and is still listed when the connection is gone |
| `Hub.LeaksStay` | internal/admin/ws_hub.go:291-443 | it stays listed whatever happens, until the connection drops that topic or takes it up again |

## Left out

- Rotation.WeightedRoundRobin.Next: the cursor stays below 2^63; beyond that its conversion to a signed index turns negative.
- Rotation.RoundRobin.Next: the same bound on the cursor.
- Adaptive.Balancer.Next: the same bound on the three cursors, and fewer than 2^63 - 1 requests in flight per target.
- Adaptive.Smoothed: floating point is modelled by real numbers and truncated, so rounding of the mean is not captured.
- ConsistentHash.SortByHash: the library's unstable sort is modelled by one that inserts by bisection; the results about the ring hold of any sorted permutation.
- HealthLayers.Checker.constructor: the pools' own target updates are not part of the checker's runs, as the checker never sees them.
- MergeTree.MergeStores: step results are values; the source stores a step's map by reference, so later merges into that map would also change the recorded result.
- Planner.MakePlan: paths are values; the source's append may share storage between the paths of sibling fields. Which of several subgraphs is asked, which depends on the order of a map, and the shared variables of a query are not part of a step; the arguments of a field are one text.
- Executor.Execute: a step's answer is an arbitrary function of the step and its dependencies' data, so a step that runs again gets the same answer; field authorisation, HTTP and an answer without data are part of that function.
- Executor.ExecuteParallel: each completion block, which the source runs under one mutex, is one step; cancellation of the context is not modelled. The source gathers the data of dependencies outside that mutex (executor.go:614-620) while other completions write the same map; the model reads it at one moment, which the Go memory model does not grant.
- TimeSeries.TimeSeriesStore.Record: timestamps are set, as the engines do before recording; the store's own default for a missing timestamp, and wrap-around of 64-bit counters, are not modelled; `TimeSeries.BatchingAgrees` covers runs in which no bucket expires, as the two stores clean up by different clocks; `TimeSeries.EveryBucketSummarises` covers all runs.
- TimeSeries.OptimizedTimeSeriesStore.RecordBatch: calls are sequential; of what concurrent calls share, `StatusCounts` models the status counters, the other counters being atomic and the samples under a lock.
- RealtimeStream.Stream.CollectEvents: the method runs uninterrupted; `StreamRuns` has the interleaved polls. A metric's signature is an arbitrary function; health events are not modelled.
- StreamRuns.RunsDeliverIff: one poller; several have nothing in common but the ring.
- EngineProtocol.RunsConserve: the engine's own batch is left out because nothing is ever added to it; error totals and the number of batches sent are not counted.
- Coalescing.Pool.Get: response bodies and their sharing between waiters are not modelled, only outcomes; every leader completes, so a panic between joining and completing is not covered.
- RateLimits.AuthLimiter.RateLimitInfo: one call reads the clock once, where the source reads it up to three times.
- Logins.EightAQuarter: counts the failures of an address since it was last cleared by a successful login.
- RetentionRuns.RetentionScheduler.ArchiveAndDelete: the source's loop has no bound; the method looks at it after any number of batches, as it may never end.
- RetentionRuns.RetentionScheduler.RunOnce: the override passes come in any order, of which the source's alphabetical one is an instance; override keys are taken as already trimmed and lower-cased.
- Retention.AuditRepo.ListOlderThan: creation times are compared as times; the database compares them as text, which orders whole and fractional seconds differently.
- Pools.NewBalancer: balancers by IP hash, by random choice, by subnet and by health score are not among its kinds; the first two would repeat the round-robin map, the last two rest on code or scores outside the modelled files. The algorithm's name is taken as already parsed.
- The executor's circuit breaker and query cache, and subscriptions: small machines that none of the results above depends on.
- Percentiles and the listing of buckets: the two percentile functions use different definitions, so there is no agreement to state.
- HTTP handling, authentication, TLS, the plugin pipeline, configuration loading, storage other than retention needs, the GraphQL parser, and the command line other than its diff.
