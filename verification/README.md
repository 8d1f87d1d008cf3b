# Verified model of SchemaPilot

Dafny 4.11 models of the algorithms and state machines of SchemaPilot, a data-governance backend, with machine-checked
proofs of what they promise. `dafny verify dfyconfig.toml` checks the whole project.

Each component is modelled in the form the Python code has: loops and field updates are methods and classes, and each is
proved equal to a specification function of the old state; what the code is for is then proved of that function, for all
inputs and over all runs. Where a promise of the code is false, the code is kept as it is: a lemma gives an input that
breaks the promise, and another gives the exact condition under which it holds.

| files | component |
|---|---|
| `boundary_fitness.dfy` | import-cycle detection by three-state depth-first search |
| `semantic.dfy` | the semantic manifest: validation and normal form |
| `semantic_binding.dfy`, `sql.dfy`, `star_join.dfy`, `group_order.dfy`, `query_scope.dfy` | the semantic-query compiler: syntax tree, denotation and rendering of its SQL, meaning preservation, scoping |
| `executor.dfy`, `query_safety.dfy`, `bound_query.dfy` | the read-only check on SQL text, the compiler's text against its lexer, and what a bound query passes and means |
| `semantic_builder.dfy` | manifest candidates bootstrapped from catalog profiles |
| `ulid.dfy` | the ULID generator, its base-32 codec and the decoder |
| `query_cache.dfy`, `query_handler.dfy` | the TTL query cache and the endpoint that uses it |
| `ingest_completeness.dfy`, `run_steps.dfy`, `run_outcomes.dfy`, `run_queue.dfy` | runs, their steps, completeness accounting, dispatch and the worker tick |
| `audit_outbox.dfy` | retrying delivery of audit events |
| `scheduling.dfy` | schedule expressions and due runs |
| `rate_limit.dfy` | per-actor windows and concurrency caps |
| `entity_resolution.dfy` | greedy clustering of records |
| `catalog_snapshot.dfy` | catalog export and import |
| `gold_pointer.dfy`, `publish_gate.dfy` | the published build, its history, review tasks and the publish gate |
| `governance_table.dfy`, `policy_packs.dfy`, `semantic_manifests.dfy` | lifecycle of policy packs and published manifests |
| `deletion.dfy` | deletion approvals, executions and purges under legal hold |
| `sequences.dfy`, `text.dfy` | sequences, and Python's view of text: order, sorting, stripping, identifiers, numerals |

Conventions. A database table is a sequence or a map of records; a service call is one atomic step, and an exception that
reaches the session boundary leaves the state unchanged. Clocks are parameters: integers for epochs and milliseconds,
reals for `time.time()`. Query execution, sinks, similarity scorers, digests and JSON encoders are function parameters of
which nothing is assumed unless a lemma says so (an injective cache key, a JSON integer that reads back). Exceptions of
foreign code are inputs: a lemma about all runs holds wherever they strike.

Where code and documentation disagree the code is followed. `new_ulid` is documented as monotonic per process, which
holds only while the clock does not go back (`Ulid.IncreasingIff`, `Ulid.UniqueIff`). The cache key is documented as
deterministic for a query; it omits the model name of the published pointer
(`QueryHandler.RefinesForEveryEngineIff`).

## Model

| member | source | states |
|---|---|---|
| BoundaryFitness.DetectCycles | tools/check_boundary_fitness.py:123-146 | for every finite edge map the search terminates, keeps earlier violations in front, and adds a violation exactly when the graph without self-edges has a directed cycle; the reports are simple cycles and the finishing order is topological off their closing edges |
| BoundaryFitness.CycleSearch.Dfs | tools/check_boundary_fitness.py:127-143 | a call gives the stack and the visiting set back as it found them, never takes back a visit or a report, and leaves its node visited or the edge to it reported; it ends because the nodes outside visiting and visited shrink |
| BoundaryFitness.CycleSearch.ReportCycle | tools/check_boundary_fitness.py:128-132 | a node met on the stack appends one violation, for the stack from its first occurrence closed by the node, which is a simple cycle of the graph |
| BoundaryFitness.ReportedIffCyclic | tools/check_boundary_fitness.py:123-146 | soundness and completeness: something was reported if and only if the graph is cyclic |
| BoundaryFitness.ReportsMeetEveryCycle | tools/check_boundary_fitness.py:127-143 | every closed walk of the graph, however long, uses an edge that closes a report |
| BoundaryFitness.ReportsForFacts | tools/check_boundary_fitness.py:128-132 | each reported sequence is a real simple cycle, and no edge closes two reports |
| BoundaryFitness.ReverseFinishIsTopological | tools/check_boundary_fitness.py:141-143 | with no report every import of a finished module was finished before it |
| Semantic.ValidateSemanticManifest | backend/shared_domain/semantic.py:16-51 | the imperative validator returns or raises, code by code, what the specification function says of every JSON dictionary |
| Semantic.NormalizeRows | backend/shared_domain/semantic.py:60-153 | the shared row loop with its growing set of seen ids equals collecting the rows from the left, stopping at the first bad one, and sorting by id |
| Semantic.CollectAccepts | backend/shared_domain/semantic.py:60-153 | rows are accepted if and only if each reads on its own and their ids are pairwise distinct; the result is then those readings in order |
| Semantic.ValidatedIsNormal | backend/shared_domain/semantic.py:16-51 | whatever is accepted is in normal form: ids strictly sorted, fields well formed, every reference resolved, workspace as expected |
| Semantic.NormalIsValidated | backend/shared_domain/semantic.py:16-51 | every manifest in normal form is accepted and comes back unchanged |
| Semantic.ValidationIdempotent | backend/shared_domain/semantic.py:16-51 | validating the output of a validation gives that output again |
| Semantic.RowOrderIrrelevant | backend/shared_domain/semantic.py:38-50 | permuting entities, metrics and joins with explicit ids changes neither acceptance nor the result |
| Semantic.AttributeOrderIrrelevant | backend/shared_domain/semantic.py:70-85 | permuting or repeating the attributes of an entity does not change the entity read |
| Semantic.JoinOrderIrrelevantIff | backend/shared_domain/semantic.py:123-153 | for accepted join rows every permutation gives the same joins if and only if all rows ask for an id, or none does and all say the same apart from it |
| Semantic.BlankJoinIdsDependOnOrder | backend/shared_domain/semantic.py:126-133 | order can decide even acceptance: for every join row with the id join_2 and its copy without an id one order is refused and the other accepted |
| SemanticBinding.BindSemanticQuery | backend/gateway/semantic_binding.py:31-151 | the imperative binder, with its loops over group_by and involved entities, returns the text, metric, grouping and datasets of the specification, or its error code |
| SemanticBinding.ParseGroupBy | backend/gateway/semantic_binding.py:192-231 | the loop over group_by gives the distinct references in order of first use as dotted texts, or the first error |
| SemanticBinding.RefTextSplits | backend/gateway/semantic_binding.py:98-104 | splitting a dotted key at its first dot gives back entity and column, because identifiers have no dot |
| SemanticBinding.InvolvedFacts | backend/gateway/semantic_binding.py:91-96 | the involved entities are the metric's entity first and then each other grouped entity once |
| SemanticBinding.AliasInjective | backend/gateway/semantic_binding.py:97 | different positions get different table aliases |
| StarJoin.SqlMeansQuery | backend/gateway/semantic_binding.py:91-138 | meaning preservation: on every database the emitted query (inner and left joins) has exactly the groups of the semantic query and the same aggregate in each; the meaning is defined on entities and rows, without SQL or aliases |
| StarJoin.FromMeansStar | backend/gateway/semantic_binding.py:249-298 | the FROM/JOIN chain denotes, per row of the metric's entity, the product over the other entities of its matches under the first join linking them, or one null row for a left join, whichever way round the join is listed; right and full joins add only environments without a metric row |
| StarJoin.KeyValuesInjective | backend/gateway/semantic_binding.py:98-110 | different group keys are different rows of the result |
| GroupOrder.SqlIgnoresGroupOrder | backend/gateway/semantic_binding.py:91-138 | the metric of each group does not depend on the order of group_by: permuted requests compile to queries with the same value per key on every database |
| GroupOrder.JoinedPermutation | backend/gateway/semantic_binding.py:112-122 | joining the other entities in another order gives the same tuples the same number of times |
| QueryScope.CompilesIff | backend/gateway/semantic_binding.py:91-138 | a metric grouped by resolved references compiles if and only if the manifest lists a join between the metric's entity and every other involved entity; a missing path is the only failure |
| QueryScope.JoinLookupSymmetric | backend/gateway/semantic_binding.py:279-298 | the join found for a pair does not depend on which of the two is named first |
| QueryScope.GroupByResolves | backend/gateway/semantic_binding.py:192-231 | every accepted reference names an entity of the manifest and one of its columns, and no reference is repeated |
| QueryScope.AliasesBoundOnce | backend/gateway/semantic_binding.py:97-122 | every alias of a compiled query is bound exactly once |
| QueryScope.ColumnsUseBoundAliases | backend/gateway/semantic_binding.py:98-110 | every selected column uses an alias that is bound |
| QueryScope.JoinIsScoped | backend/gateway/semantic_binding.py:249-276 | each join, of any of the four kinds, brings in the next involved entity, and its condition relates exactly that entity and the metric's |
| QueryScope.GroupByMatchesItems | backend/gateway/semantic_binding.py:98-110 | GROUP BY lists exactly the select items that are not the metric, in order |
| QueryScope.DatasetsAreThoseInvolved | backend/gateway/semantic_binding.py:124-134 | dataset_ids are exactly the datasets of the involved entities, sorted, once each, and never empty |
| QueryScope.BoundMeans | backend/gateway/semantic_binding.py:31-151 | a successful binding is the text of a query compiled from a validated manifest of that workspace; a failing one ends in one of nine codes, so three of the written error branches can never be taken |
| Executor.ValidateReadOnlyQuery | backend/gateway/executor.py:75-87 | the loop over the tokens accepts and rejects as the specification of the read-only check does |
| Executor.AcceptedIsHarmless | backend/gateway/executor.py:75-87 | accepted text holds no semicolon and no denied keyword among its lower-cased identifier tokens |
| Executor.TokensConcat | backend/gateway/executor.py:26 | leftmost-longest lexing of a concatenation is the concatenation of the lexings whenever no identifier characters meet at the seam |
| Executor.TokensLower | backend/gateway/executor.py:79-84 | lower-casing commutes with lexing |
| Executor.ApplyOptionalRowFilter | backend/gateway/executor.py:178-202 | the loop with its early exit returns the first capped matching rows in order, an error for a malformed column and nothing for an unknown one |
| Executor.NormalizedMaxRows | backend/gateway/executor.py:69-72 | the cap always lies in 1..5000 and is the asked one within that range |
| QuerySafety.QueryLexes | backend/gateway/semantic_binding.py:98-130 | lexing the rendered text gives exactly the words of the query's syntax tree, in order |
| QuerySafety.CompiledTextPasses | backend/gateway/executor.py:75-87 | for every manifest and query that compile, the rendered text passes the read-only check, unchanged, if and only if no involved entity id, grouped column, used join key or metric field lower-cases to a denied keyword |
| BoundQuery.BoundTextIsRight | backend/gateway/semantic_binding.py:31-151 | whatever a successful binding returns is the text of a query compiled from a validated manifest of the workspace, passes the read-only check if and only if the names it uses are harmless, and with inner and left joins means the semantic query on every database |
| SemanticBuilder.BuildSemanticManifestCandidate | backend/workers/semantic_builder.py:26-97 | the imperative assembly over all datasets returns what validating the specified candidate returns |
| SemanticBuilder.UniqueEntityId | backend/workers/semantic_builder.py:228-235 | the fresh-name loop terminates by pigeonhole on the taken ids and returns the first free candidate, which it adds |
| SemanticBuilder.FirstFreeFacts | backend/workers/semantic_builder.py:228-235 | the id found is the base or the base with a numeric suffix, is not taken, and every earlier candidate was |
| SemanticBuilder.SafeIdentifier | backend/workers/semantic_builder.py:219-225 | for any lower-casing function at all the result is an identifier |
| SemanticBuilder.InferJoins | backend/workers/semantic_builder.py:250-282 | the nested loops with their set of seen ids give the joins of all ordered pairs, taken left to right, sorted by id |
| SemanticBuilder.EntitiesDistinct | backend/workers/semantic_builder.py:43-78 | entity ids are pairwise distinct identifiers |
| SemanticBuilder.MetricsDistinct | backend/workers/semantic_builder.py:80-89 | metric ids are pairwise distinct |
| SemanticBuilder.InferredDistinct | backend/workers/semantic_builder.py:268-271 | join ids are pairwise distinct |
| SemanticBuilder.InferredJoinIsForeignKey | backend/workers/semantic_builder.py:252-281 | each inferred join goes from a column of its left entity to the primary key of its right entity, and comes from a pair of the catalog |
| SemanticBuilder.RelatedIdInferred | backend/workers/semantic_builder.py:267-271 | every pair whose key is shared has its concatenated id among the joins |
| SemanticBuilder.EveryPairJoinedIff | backend/workers/semantic_builder.py:267-270 | every such pair keeps its own join if and only if no two of them have the same concatenated id |
| SemanticBuilder.CollidingJoinDropped | backend/workers/semantic_builder.py:250-282 | every catalog with datasets named a, a_to_b, b_to_c and c, of which a has the key of b_to_c and a_to_b that of c as a column, is built without the join of a_to_b with c, whose id the join of a with b_to_c has taken |
| SemanticBuilder.CollidingCatalogExists | backend/workers/semantic_builder.py:26-71 | four datasets, in the order of their names, that are such a catalog |
| SemanticBuilder.BootstrapAcceptedIff | backend/workers/semantic_builder.py:43-97 | the candidate lands in the validator's language, and is returned sorted, if and only if there are datasets, the workspace id is trimmed and not blank, and every entity has a dataset id and identifiers for the columns it keeps; metrics and joins never fail |
| SemanticBuilder.IdentifierColumnsSuffice | backend/workers/semantic_builder.py:43-97 | when all column names are identifiers the bootstrap cannot fail and has one entity per dataset |
| Ulid.EncodeBase32 | backend/shared_domain/ids.py:39-46 | the divmod loop gives, for every integer and length, the numeral padded on the left and cut on the right |
| Ulid.EncodedIsDigits | backend/shared_domain/ids.py:39-46 | below 32^length that is the numeral of exactly length digits |
| Ulid.EncodedOrder | backend/shared_domain/ids.py:39-46 | below 32^length encoding is injective and keeps the order, lexicographically |
| Ulid.OverflowCollides | backend/shared_domain/ids.py:39-46 | at 32^length and above the last digits are cut, so different values get one text |
| Ulid.InjectiveIff | backend/shared_domain/ids.py:39-46 | the bound is exact: encoding is injective below n if and only if n is at most 32^length |
| Ulid.Generator.NewUlid | backend/shared_domain/ids.py:21-36 | one call moves the two counters as specified and returns their encoding |
| Ulid.IncreasingIff | backend/shared_domain/ids.py:21-36 | over any run in range the ids strictly increase if and only if the clock never goes back |
| Ulid.UniqueIff | backend/shared_domain/ids.py:21-36 | over any run in range the ids are unique if and only if no millisecond comes back after another one was read |
| Ulid.ClockStepBackRepeatsAnId | backend/shared_domain/ids.py:28-33 | reads m, m+1, m draw the same id twice, for every m |
| Ulid.UlidTimestampMs | tools/kpi_extract.py:151-161 | the decoding loop equals positional value, undefined at the first character outside the alphabet |
| Ulid.TimestampRecovered | tools/kpi_extract.py:151-161 | the decoder recovers the milliseconds of every id of every run in range |
| QueryCache.InMemoryQueryCache.Get | backend/gateway/query_cache.py:29-41 | a lookup answers with a fresh entry, removes an expired one, and does nothing when disabled |
| QueryCache.InMemoryQueryCache.Set | backend/gateway/query_cache.py:43-53 | a store evicts the first entry of least expiry when full, then writes in dictionary order |
| QueryCache.InMemoryQueryCache.InvalidatePrefix | backend/gateway/query_cache.py:55-60 | popping the doomed keys one by one drops exactly the entries whose key has the prefix |
| QueryCache.HitIsLastWrite | backend/gateway/query_cache.py:29-60 | over every run and any clock a hit is the last value set for the key, younger than the time to live and not invalidated since |
| QueryCache.SizeBounded | backend/gateway/query_cache.py:49-53 | over every run the size never exceeds the capacity |
| QueryCache.Survives | backend/gateway/query_cache.py:43-53 | with strictly increasing set times an entry survives the next capacity - 1 sets of any keys: a lookup within the time to live hits |
| QueryCache.FullCacheEvictsOldest | backend/gateway/query_cache.py:50-52 | a set of another key into a full cache evicts the entry of least expiry, so that bound is exact |
| QueryHandler.Query | backend/gateway/app.py:483-650 | lookup, execution, masking and store in the endpoint refine one specified step; only successful answers are stored |
| QueryHandler.MaskRows | backend/gateway/app.py:634-645 | the nested loops mask exactly the cells of columns with a mask mode, and name surplus columns by position |
| QueryHandler.AnswerIsFresh | backend/gateway/app.py:498-650 | for every engine, after any run of calls an answer, hit or miss, equals executing, filtering and masking afresh, given an injective key and that snapshot and build id identify the pointers the calls find in their workspace |
| QueryHandler.RefinesForEveryEngineIff | backend/gateway/app.py:1511-1544 | for every engine the cache refines recomputation on every run over a workspace's pointers if and only if it is off or no two of those pointers agree on snapshot and build id: the model name is not in the key |
| QueryHandler.ModelNameGoesStale | backend/gateway/app.py:1511-1544 | any two pointers that agree on both ids and differ make some engine answer stale: after a request under the first, one under the second that would fail is given the rows of the first |
| QueryHandler.RefinesRecomputationIff | backend/gateway/app.py:1511-1544 | for one engine and the pointers published the cache refines recomputation if and only if it is off or that engine answers alike for pointers the key cannot tell apart |
| IngestCompleteness.IngestSources | backend/workers/run_processor.py:590-792 | the nested loops over sources and files count as specified and stop only for quota, timeout and uncaught errors |
| IngestCompleteness.CountsConserved | backend/workers/run_processor.py:638-792 | every file found is counted once as expected and once as success or failure; the other failures are the sources that could not be discovered |
| IngestCompleteness.NoFailuresIff | backend/workers/run_processor.py:638-795 | no failure is recorded if and only if every source and file is clean and the item quota suffices |
| RunSteps.Run.ProcessQueuedRun | backend/workers/run_processor.py:205-279 | whatever raises and wherever, status, steps and the sequence of statuses assigned are the specified outcome |
| RunSteps.Run.ProcessDiscoverRun | backend/workers/run_processor.py:551-926 | the discover code starts and succeeds the steps of its plan in order, and stops at the first exception |
| RunSteps.Run.ProcessSemanticBootstrapRun | backend/workers/run_processor.py:472-548 | the bootstrap code starts and succeeds the steps of its plan in order, and stops at the first exception |
| RunSteps.Run.ProcessMaterializedRefreshRun | backend/workers/run_processor.py:929-991 | the refresh code refuses when disabled, else starts and succeeds the steps of its plan in order |
| RunSteps.Run.EnsureFailedRunStep | backend/workers/run_processor.py:434-458 | a failed step is kept; else the running step, else the one of lowest order, is marked failed |
| RunOutcomes.PlansWellFormed | backend/workers/run_processor.py:93-138 | in every plan keys are distinct, orders ascend and each step depends only on earlier ones |
| RunOutcomes.ReachedIs | backend/workers/run_processor.py:318-432 | after any number of actions the first steps have succeeded once, at most one is running and the rest are queued |
| RunOutcomes.StartedOnlyWhenReady | backend/workers/run_processor.py:93-138 | no step leaves queued before everything it depends on has succeeded |
| RunOutcomes.SucceededRunSucceededSteps | backend/workers/run_processor.py:205-246 | a succeeded run has every step succeeded, each attempted once |
| RunOutcomes.FailedRunHasOneFailedStep | backend/workers/run_processor.py:247-279 | a failed run with a plan has exactly one failed step and none running, whatever raised |
| RunOutcomes.FailedRunInOrderIff | backend/workers/run_processor.py:434-458 | step statuses read succeeded* failed queued* if and only if the exception came in a running step or before the second step started; later between two steps the first step is blamed although it succeeded |
| RunOutcomes.GapFailureBlamesFirst | backend/workers/run_processor.py:253-279 | an exception between two steps after the second has started leaves the first step failed and the second succeeded |
| RunOutcomes.BootstrapGapFailure | backend/workers/run_processor.py:472-548 | a bootstrap run that meets an exception just before its third step is a concrete run out of order |
| RunOutcomes.TrailEndsInOutcome | backend/workers/run_processor.py:205-279 | a run moves from queued through running to its final status; only an exception while auditing the success turns succeeded into failed |
| RunOutcomes.StrictDiscoverSucceedsIff | backend/workers/run_processor.py:551-868 | a strict discover run succeeds if and only if nothing raised, there are sources, all are clean and the quota suffices; then the processed count equals the expected count, which is all that was found |
| RunQueue.NextQueuedRun | backend/workers/run_processor.py:141-168 | the loop over candidates picks the eligible run of least id, and none exactly when no workspace with a queued run has spare capacity |
| RunQueue.Worker.ProcessQueuedRunsOnce | backend/workers/service.py:31-81 | the tick enqueues due schedules, drains, and commits; an exception that escapes leaves the database as it was |
| RunQueue.DrainIsFifo | backend/workers/service.py:44-76 | a tick processes the runs eligible at its start in id order, as many as allowed, and exactly the others stay eligible |
| RunQueue.DrainKeepsRunning | backend/workers/service.py:44-76 | a tick moves no workspace's running count |
| RunQueue.RunningWithinLimit | backend/workers/run_processor.py:157-168 | while a chosen run is processed its workspace has at most the limit running |
| RunQueue.TickDrains | backend/workers/service.py:31-81 | the number returned is the lesser of the allowance and the eligible runs, the queue shrinks by exactly it, and fewer than allowed means none is left |
| AuditOutbox.Outbox.Dispatch | backend/shared_domain/audit_outbox.py:62-129 | a dispatch attempts the batch in id order and commits rows, counters and backlog together, or nothing when the sink breaks |
| AuditOutbox.DispatchedRow | backend/shared_domain/audit_outbox.py:90-116 | a committed dispatch changes each batch row by one attempt and no other row |
| AuditOutbox.BatchInIdOrder | backend/shared_domain/audit_outbox.py:76-89 | a deliverable row left out has a greater id than all attempted ones, and only a full batch leaves one out |
| AuditOutbox.RunSound | backend/shared_domain/audit_outbox.py:31-129 | over every run each row's attempt count equals the committed emit calls for it and stays within max_attempts; pending rows have attempts left, failed ones used them all, sent ones were delivered |
| AuditOutbox.FinalRowsKept | backend/shared_domain/audit_outbox.py:79-83 | sent and failed rows are never changed again |
| AuditOutbox.DebtFalls | backend/shared_domain/audit_outbox.py:105-117 | each committed dispatch strictly lowers the attempts the pending rows have left, until none are, even if the sink always refuses |
| AuditOutbox.OutboxDrains | backend/shared_domain/audit_outbox.py:62-142 | n pending rows are drained by n times max_attempts committed dispatches, whatever the sink does |
| Scheduling.AcceptedInterval | backend/shared_domain/scheduling.py:20-33 | accepted expressions ask for whole minutes between 60 and 86400 seconds |
| Scheduling.EveryMinuteAccepted | backend/shared_domain/scheduling.py:27-33 | any spelling of one to four digits is accepted exactly when it reads as 1..1440 minutes |
| Scheduling.MinutesRoundTrip | backend/shared_domain/scheduling.py:27-33 | the expression written for m minutes is read as m minutes |
| Scheduling.CreatedKeepsInterval | backend/shared_domain/scheduling.py:36-69 | a schedule made from an accepted expression is not due at once, first falls due after its interval, and keeps it |
| Scheduling.ScheduleTable.EnqueueDueScheduledRuns | backend/shared_domain/scheduling.py:93-144 | the loop adds one run per due enabled schedule, in row order, and moves exactly those into the future |
| Scheduling.SchedulesIndependent | backend/shared_domain/scheduling.py:111-134 | over every run of ticks schedules do not affect one another |
| Scheduling.NeverOverdue | backend/shared_domain/scheduling.py:115-133 | after any tick an enabled schedule lies strictly in the future |
| Scheduling.FiringsSpaced | backend/shared_domain/scheduling.py:115-133 | over every run of ticks, however the clock moves, firings are at least the interval apart |
| Scheduling.FiringsBounded | backend/shared_domain/scheduling.py:115-133 | in any interval [a, b] a schedule fires at most 1 + (b - a) / I times |
| Scheduling.GapsBounded | backend/shared_domain/scheduling.py:115-133 | with ticks at most d apart consecutive firings are less than I + d apart |
| RateLimit.InMemoryActorRateLimiter.TryAcquire | backend/shared_domain/rate_limit.py:32-53 | window roll, concurrency check and rate check happen in that order, with the specified counters and reason |
| RateLimit.InMemoryActorRateLimiter.Release | backend/shared_domain/rate_limit.py:55-61 | a release lowers the actor's count, and drops it at one or below |
| RateLimit.PerMinuteBoundIff | backend/shared_domain/rate_limit.py:32-53 | over the readings of a clock no actor is ever granted more than the limit in a minute, whatever the limit and the interleaving of calls, if and only if no minute comes back after another one was read |
| RateLimit.PerMinuteBound | backend/shared_domain/rate_limit.py:32-53 | with such a clock, though it may step back within a minute or into one never read, an actor gets at most the limit in any minute |
| RateLimit.GrantsPerVisit | backend/shared_domain/rate_limit.py:35-51 | whatever the clock does, an actor is granted at most the limit for each unbroken stretch of readings in one minute; no smaller bound holds (BoundedIff) |
| RateLimit.BoundedIff | backend/shared_domain/rate_limit.py:35-51 | grants at times of any kind stay within n times the limit, for all limits and calls, if and only if at most n such stretches have a reading of that kind |
| RateLimit.SixtySecondBoundIff | backend/shared_domain/rate_limit.py:32-53 | never more than twice the limit in any closed interval of sixty seconds if and only if no such interval touches three stretches |
| RateLimit.SixtySecondBound | backend/shared_domain/rate_limit.py:32-53 | so twice the limit bounds every sixty seconds when no minute comes back |
| RateLimit.MonotonicNeverReturns | backend/shared_domain/rate_limit.py:35-37 | a clock that never goes back never returns to a minute |
| RateLimit.ClockStepBackGrantsTwice | backend/shared_domain/rate_limit.py:35-37 | readings 0, 60, 0 are a concrete clock on which a limit of one grants twice in a minute |
| RateLimit.InflightBounded | backend/shared_domain/rate_limit.py:39-61 | in flight never exceeds the cap, whatever the clock does |
| RateLimit.InflightIsGrantsMinusReleases | backend/shared_domain/rate_limit.py:51-61 | in flight equals grants minus releases if and only if every release follows an unreleased grant |
| RateLimit.NoninterferenceIff | backend/shared_domain/rate_limit.py:32-61 | over the readings of a clock every decision, for all limits, calls and actors, is the one the actor would get if it were alone if and only if no minute comes back |
| RateLimit.DecidedAlone | backend/shared_domain/rate_limit.py:32-61 | with such a clock every decision is the one the actor would get alone |
| EntityResolution.ResolveEntities | backend/workers/entity_resolution_v2.py:24-69 | the nested loops report exactly the clusters of the specification, with ids, score and rollback payload |
| EntityResolution.ResolutionSound | backend/workers/entity_resolution_v2.py:38-68 | for all records, scorers and thresholds clusters are pairwise disjoint, and each is an anchor with later records that all reach the threshold against it, scored by their minimum and 1 |
| EntityResolution.ResolutionMaximal | backend/workers/entity_resolution_v2.py:38-53 | no two records outside all clusters reach the threshold, in sorted order |
| EntityResolution.DecisionFacts | backend/workers/entity_resolution_v2.py:54-98 | the canonical id is the least member, the members are sorted, and rolling back returns exactly them |
| EntityResolution.NeverAloneIff | backend/workers/entity_resolution_v2.py:38-60 | every cluster, for every scorer, has at least two members if and only if no two records have the same trimmed id |
| EntityResolution.DuplicatesMerge | backend/workers/entity_resolution_v2.py:44-60 | any two records with one id, in any list, form a cluster of one for a scorer that likes only them |
| EntityResolution.AlwaysCanonicalIff | backend/workers/entity_resolution_v2.py:37-57 | the canonical id is the id of the anchor the members were scored against, for every scorer, if and only if trimming the ids does not change their order |
| EntityResolution.LeadingSpaceChangesOrder | backend/workers/entity_resolution_v2.py:37-57 | ids 'a' and ' b' are a concrete input where it does |
| CatalogSnapshot.Catalog.Import | backend/control_plane/catalog_snapshot.py:71-151 | the two import loops give the specified tables and counts, and an error leaves the store as it was |
| CatalogSnapshot.RoundTrip | backend/control_plane/catalog_snapshot.py:15-151 | exporting, importing where the workspace has no rows and no id is taken, and exporting again gives the same snapshot except that no source says its credentials were redacted |
| CatalogSnapshot.ImportOfExport | backend/control_plane/catalog_snapshot.py:71-151 | such an import adds exactly the exported rows, without credentials, under their own ids |
| CatalogSnapshot.ImportKeepsRows | backend/control_plane/catalog_snapshot.py:96-149 | an import changes no existing row and adds rows to its own workspace only |
| CatalogSnapshot.SecondImportAddsNothingIff | backend/control_plane/catalog_snapshot.py:100-133 | importing the same snapshot again adds nothing if and only if none of its ids belongs to another workspace |
| CatalogSnapshot.ForeignSourceAddedEachTime | backend/control_plane/catalog_snapshot.py:96-119 | for instance a snapshot of one source whose id another workspace owns adds a row under a new uuid at every import |
| GoldPointer.PointerStore.Rollback | backend/shared_domain/gold_pointer.py:45-72 | the search through the reversed history finds the nearest build, the default is the entry before the last, and the target becomes latest |
| GoldPointer.RunConsistent | backend/shared_domain/gold_pointer.py:18-72 | over every run adjacent history entries have different builds and the latest pointer shares the build of the last entry |
| GoldPointer.HistoryIsPrefix | backend/shared_domain/gold_pointer.py:18-72 | the history is append-only over every run |
| GoldPointer.OnlyPublished | backend/shared_domain/gold_pointer.py:18-72 | nothing is ever live or in the history that was not published |
| GoldPointer.NearestFacts | backend/shared_domain/gold_pointer.py:55-61 | a rollback by build id finds its target exactly when the history has that build, and then the last entry with it |
| GoldPointer.TwoRollbacksReturn | backend/shared_domain/gold_pointer.py:62-71 | two default rollbacks lead back to the last history entry |
| GoldPointer.TwoRollbacksRestoreIff | backend/shared_domain/gold_pointer.py:45-72 | two default rollbacks give back what was live if and only if what was live is the last history entry |
| GoldPointer.RepublishedIff | backend/shared_domain/gold_pointer.py:36-41 | right after a publish they fail to do so if and only if it published the last build again, under another snapshot or model |
| GoldPointer.RepublishNotRemembered | backend/shared_domain/gold_pointer.py:36-41 | two publishes of builds a and b and one of b under another snapshot are such a run: two rollbacks give the first b back |
| PublishGate.ControlPlane.ApiPublishBuild | backend/control_plane/app.py:1345-1399 | the endpoint evaluates the gate, publishes or opens a failure task as specified; a missing contract report counts as failed |
| PublishGate.ControlPlane.ReviewQueueSummary | backend/control_plane/review_repository.py:141-162 | one pass counts totals, statuses and open blocking tasks; the latter equals the count the gate uses |
| PublishGate.StatusesAddUp | backend/control_plane/review_repository.py:150-155 | the status counts add up to the total and bound the blocking count |
| PublishGate.PublishOnlyThroughGate | backend/control_plane/gating.py:6-16 | a publish request moves the pointer if and only if the contracts passed and no blocking task is open |
| PublishGate.PointersConsistent | backend/control_plane/app.py:1359-1375 | the pointer invariants hold for every workspace over every run of tasks, decisions, publishes and rollbacks |
| PublishGate.OnlyDecisionsUnblock | backend/control_plane/review_repository.py:91-138 | nothing but a decision lowers the number of open blocking tasks |
| PublishGate.DecisionBetween | backend/control_plane/app.py:1359-1399 | over any run, between a publish refused for its contracts and the next that goes through someone decided one of the workspace's review tasks |
| PublishGate.DecidedStaysDecided | backend/control_plane/review_repository.py:91-127 | no request opens a decided task again |
| GovernanceTable.UpsertedIsActive | backend/control_plane/policy_pack_service.py:358-415 | rewriting or adding the active row makes the new body active and keeps it the only one |
| PolicyPacks.Service.DecideChange | backend/control_plane/policy_pack_service.py:94-205 | deciding a change refuses, defers, stages a canary or applies as specified; errors change nothing |
| PolicyPacks.Service.PromoteCanary | backend/control_plane/policy_pack_service.py:269-327 | promoting makes the canary's pack effective and retires the canary |
| PolicyPacks.Service.RollbackPack | backend/control_plane/policy_pack_service.py:208-239 | a rollback makes the previous pack effective, or refuses when there is none |
| PolicyPacks.StepMoves | backend/control_plane/policy_pack_service.py:94-327 | every request moves its own workspace's effective pack by at most one state and leaves all other workspaces alone |
| PolicyPacks.VersionCountsSteps | backend/control_plane/policy_pack_service.py:172-327 | in every reachable state at most one row is effective, its version is the number of applies, promotions and rollbacks, and the previous pack it names was effective just before |
| PolicyPacks.RollbackPossibleIff | backend/control_plane/policy_pack_service.py:220-240 | over every run a rollback is possible if and only if two packs have been effective, and restores the one before last |
| PolicyPacks.TwoRollbacksRestore | backend/control_plane/policy_pack_service.py:208-239 | two rollbacks restore the same content two versions later |
| PolicyPacks.DecidedRequestsCanBeApproved | backend/control_plane/policy_pack_service.py:105-205 | decisions are not final: a request already decided can be approved, and applies again |
| SemanticManifests.Service.DecideChange | backend/control_plane/semantic_manifest_service.py:96-182 | deciding a manifest change validates what was staged again and applies it as specified |
| SemanticManifests.Service.RollbackManifest | backend/control_plane/semantic_manifest_service.py:185-214 | a rollback validates the previous manifest again and makes it effective |
| SemanticManifests.VersionCountsSteps | backend/control_plane/semantic_manifest_service.py:148-214 | in every reachable state at most one row is effective, its version is the number of applies and rollbacks, and it holds the manifest effective just before |
| SemanticManifests.HistoryPublishable | backend/control_plane/semantic_manifest_service.py:138-214 | only manifests in normal form, of their own workspace, are ever effective |
| SemanticManifests.ApprovalApplies | backend/control_plane/semantic_manifest_service.py:138-147 | an approval never fails validation: what was staged is a normal form and comes back unchanged |
| SemanticManifests.RollbackPossibleIff | backend/control_plane/semantic_manifest_service.py:193-214 | over every run a rollback is possible if and only if two manifests have been effective, and restores the one before last |
| SemanticManifests.TwoRollbacksRestore | backend/control_plane/semantic_manifest_service.py:185-214 | two rollbacks restore the same manifest and checksum two versions later |
| Deletion.Governance.ApproveDeletionRequest | backend/control_plane/deletion.py:114-168 | a decision denies self-approval, blocks an approval under hold, else sets the status, and records the decision |
| Deletion.Governance.ExecuteDeletionRequest | backend/control_plane/deletion.py:171-267 | an execution blocks under hold, refuses what is not approved, else executes and spends the approval |
| Deletion.Governance.ExecuteRetentionPurge | backend/control_plane/retention.py:71-154 | a purge needs an enabled policy with purging on, no hold and a path |
| Deletion.ExecutesIff | backend/control_plane/deletion.py:171-256 | a call executes a deletion if and only if it is an execution of an approved request of that workspace with the hold off |
| Deletion.HoldFreezes | backend/control_plane/deletion.py:184-195 | while the hold is on neither a deletion nor a purge executes, whatever was approved before |
| Deletion.PurgeNeedsPolicy | backend/control_plane/retention.py:81-101 | no purge run is recorded without an enabled policy, purging on and the hold off |
| Deletion.DutiesSeparated | backend/control_plane/deletion.py:86-256 | in every reachable state an approved request was last decided by an approval of someone other than its requester, and no request was executed more often than approved |
| Deletion.EveryExecutionApproved | backend/control_plane/deletion.py:171-256 | every execution of every run happened with the hold off on a request someone else had approved last |
| Deletion.EveryAttemptApproved | backend/control_plane/deletion.py:184-214 | every start of the deletion workflow, whether it is recorded or an exception follows, is with the hold off on a request someone else had approved last |
| Deletion.StartedIsRecordedOrBroken | backend/control_plane/deletion.py:202-256 | the starts of the workflow are the recorded executions and those an exception followed, which leave the request approved and can be repeated |
| Deletion.StartsAccounted | backend/control_plane/deletion.py:202-256 | so starts outnumber approvals at most by the exceptions that followed |

## Left out

- HTTP handlers, middleware, metrics, logging, tracing, the CLI, the UI, the SDK, migrations and release tooling: plumbing without an invariant of its own; of the gateway and control-plane endpoints only the cache section of `query` and the publish endpoint are modelled.
- DuckDB, Trino, OpenSearch, Qdrant, Vault, webhooks, JWKS and plugin subprocesses: calls into them are function parameters or nondeterministic outcomes.
- SQLAlchemy sessions: commit and rollback keep or discard the new state; isolation between concurrent sessions, lock contention and the threads behind the in-memory locks are not modelled.
- SHA-256, HMAC, JSON, base64 and UTF-8: digests and encoders are abstract; floating-point rounding of clocks and scores is not modelled.
- StarJoin.SqlMeansQuery: stated for inner and left joins; a right or full join also yields rows without a metric row, for which the semantic query has no meaning of its own. `StarJoin.FromMeansStar` and the lemmas of `query_scope.dfy` cover all four kinds.
- StarJoin.SqlMeansQuery: SQL `sum` and `avg` run over rationals, and cells are compared by value; column types and implicit casts are not modelled.
- Executor.ValidateReadOnlyQuery: `str.lower` is the ASCII mapping; the Kelvin sign and the dotted capital I, which also lower to ASCII letters, may extend a token in text typed by a caller; the compiler's text is ASCII.
- Scheduling.EveryMinuteAccepted: digits are ASCII; the pattern's `\d` also admits other Unicode digits, which `int` reads alike.
- Ulid.TimestampRecovered: asks of `str.upper` only that it leaves the id alone, as it does every string of digits and capital letters.
- CatalogSnapshot.RoundTrip: for rows whose ids are trimmed and not blank, as every writer of the catalog makes them; an id with surrounding space is imported under its trimmed form.
- CatalogSnapshot.ImportKeepsRows: assumes that a drawn uuid is not yet a key; the primary key refuses such an insert.
- QueryHandler.Query: the cached payload is a value; that `dict(hit.value)` is a shallow copy whose row lists stay shared is not captured.
- QueryHandler.Query: the published pointer is read once per request; the source reads it for the key and again for the execution, and a publish in between is not modelled.
- RunSteps.Run.ProcessQueuedRun: timestamps, durations, evidence URIs and output payloads of steps are left out, and exceptions raised inside the exception handler are the escaping exceptions of `run_queue.dfy`.
- RunQueue.NextQueuedRun: run ids are compared in code-point order, as a database with a binary collation does.
- AuditOutbox.RunSound: counts committed emit calls; a dispatch that breaks may have delivered rows whose attempts are not recorded, and delivers them again.
- PolicyPacks.Service.DecideChange: the review task that is decided along with a change request is not updated here; review tasks are modelled in `publish_gate.dfy`.
- GoldPointer.RunConsistent: covers publish and rollback; `build_gold_snapshot` also writes the latest pointer without history and is not part of this model.
- SemanticBinding.BindSemanticQuery: output column names `entity__column` are not claimed to be distinct, because they need not be.
- Profiling, PII detection, decision scoring, date and currency parsing, evidence stores, confidence values and provenance: shallow or dominated by library behaviour.
