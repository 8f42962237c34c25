# Aleph: verified kernels

A Dafny model of the stateful and algorithmic kernels of Aleph, with proofs of what they promise: plan ordering
and the Act/Observe/Reflect loop, the LightGCN passes, the ontology compiler's two modes, the DuckDB write lock and
`ExecTx`, the request-resilience chain, the caches and stores that must agree with a simple log, migrations, ranking
and chunking. `dafny verify dfyconfig.toml` checks the whole project.

Most modules have the same three parts: a small specification (a function of the inputs, or of a log of what has
happened), lemmas over all inputs or all runs about that specification, and the operation as the source writes it
(a loop, an array, a class whose fields change), proved to compute or to follow the specification.

## How to read the model

- `Std`, `Text`, `Sums`, `Plan` hold shared vocabulary: options and results, substring search, finite sums, the planned
  step.
- `StepOrder`, `StepBlocks`, `TrustLoop`, `TrustLaws` model `internal/decision`.
- `LightGcn`, `LightGcnLaws` model `internal/gnn/model.go`.
- `SqlQuery`, `OntologyCompiler`, `OntologyMeaning`, `OntologyLaws`, `OntologyModes`, `OntologyExamples` model
  `internal/dsl/compiler.go`: queries, the compiler, what a compiled object denotes, what is read, named and refused,
  when its two modes agree, and declarations for which they do not. Generated SQL is a structured query with a meaning
  over bags of rows; how the database compares, computes and aggregates values is arbitrary, and a filter has a meaning
  of its own as a comparison on values.
- `WriteLock` (interleavings) and `ExecTx` (one caller) model `internal/storage/duckdb.go`.
- `CircuitBreaker`, `RateLimit`, `Retry`, `RequestChain`, `RequestRetry`, `RequestBreaker`, `TokenRevocation` model
  `internal/middleware` and the issue and expiry times of `internal/auth/jwt.go`. A mutex-protected section is one step.
- `LruCache`, `Chunking` model `internal/memory/embed.go` and `internal/suggestion/cache.go`; `Ranking` models
  `internal/suggestion/ranker.go`.
- `ToolRepository` models `internal/repository`, `Migrations` models `internal/migrate/migrate.go`.

Floats are reals, times and durations are unbounded integers, `math.Sqrt` is any function that returns a root
(for the adjacency, any function that is positive on positive numbers). Handlers, transaction functions, tool
executions, SQL failures, random numbers and clocks are parameters and arbitrary.

## Where the code does not do what is promised

Where a promise fails, a lemma shows an input or a family of inputs for which it does, and another says for all inputs
exactly when it holds.

- The comment on `SortStepsByDependencies` promises that independent steps keep their order. They need not
  (`StepOrder.IndependentStepsCanSwap`). The order of any two steps is decided by the first step that reaches each of
  them and, when that is the same one, by the dependency lists below it (`StepBlocks.OrderOfAnyTwo`); the promise holds
  exactly when these never put a later independent step first (`StepBlocks.KeepsIndependentOrderIff`).
- A predicted property is promised a probability and a vector column. The compiler writes the suffix of their names
  behind the closing quote, so the query does not parse; neither does one with a filter operator outside the seven that
  are known (`OntologyMeaning.UnparsedRejected`). Every other object's query parses (`OntologyMeaning.ParsesIff`).
- View mode rejects a renamed property (`OntologyExamples.RenamedOnlyInline`), and answers with other data when
  properties swap names (`OntologyExamples.SwappedDiffer`). For an object without relations the modes agree on all data
  exactly when its view passes every mentioned column through (`OntologyModes.ViewModeAgreesIff`).
- Aggregates do not work with views. An aggregate over a property that is selected under its own name is rejected in
  both modes, because that property is left out of the grouping (`OntologyMeaning.AggregatedPropertyRejected`,
  `OntologyMeaning.GroupsCoveredIff`). An aggregate over an undeclared field, as in the repository's own example, is
  answered inline and rejected over the view (`OntologyExamples.StatisticheOnlyInline`). No usable object with an
  aggregate has modes that always agree (`OntologyModes.AggregatesNeverAgree`).
- `ExecTx` can answer nil without a commit, or an error after one, when `fn` finishes the transaction itself
  (`ExecTx.OwnRollbackAnswersNil`, `ExecTx.AnswersTrulyIff`).
- The rate-limit cleanup forgets admissions that still count for windows above two minutes
  (`RateLimit.ForgottenAdmission`, `RateLimit.CleanupInvisibleIff`).
- A revoked token is accepted again if it outlives the revocation store (`TokenRevocation.RevokedForGoodIff`).
- A tool error with an empty message is recorded as a failure, observed as a success and never corrected
  (`TrustLoop.ObservedSuccessIff`, `TrustLoop.MuteCycleUnseen`).
- Backoff waits fall when the initial delay is negative (`Retry.NegativeDelayFalls`, `Retry.WaitsClimbIff`).
- After a failed version query migrations can commit out of order (`Migrations.FailedQueryReorders`,
  `Migrations.AlwaysAboveIff`).
- `ListTools` does not look at `rows.Err`, so a read that stops early is remembered and served again
  (`ToolRepository.ShortReadIsRemembered`, `ToolRepository.StepCoherentIff`).
- A composite score is negative for some request exactly when the tool's usage count is
  (`Ranking.CompositeNonNegativeIff`).
- The default jitter is documented as plus or minus ten per cent; the code only ever adds it (`Retry.WaitBounds`).

## Model

| member | source | states |
|---|---|---|
| StepOrder.OrderIsDependencyOrder | internal/decision/engine.go:397-434 | for every plan, with cycles, self-dependencies, duplicate and unknown names: every input position comes out exactly once, and a dependency (the last step of that name) precedes its dependent unless it can itself reach the dependent |
| StepOrder.AcyclicPlanFullyOrdered | internal/decision/engine.go:397-434 | without cycles every step follows all its dependencies |
| StepOrder.OrderUnchangedIff | internal/decision/engine.go:393-434 | the positions stay in order iff every dependency already stands no later than its step |
| StepOrder.IndependentStepsCanSwap | internal/decision/engine.go:393-396 | the promised stability fails: two steps that do not reach each other swap |
| StepOrder.EqualStepsHideMove | internal/decision/engine.go:397-434 | two equal steps that depend on themselves change places without a trace in the list, so the list shows a move only if no step is given twice |
| StepBlocks.VisitTakesReached | internal/decision/engine.go:410-427 | a visit takes exactly the steps it reaches over steps not yet visited |
| StepBlocks.EmittedUpto | internal/decision/engine.go:428-433 | after the first m outer visits exactly the steps that one of the first m steps reaches are out |
| StepBlocks.BlocksDecideOrder | internal/decision/engine.go:397-434 | two steps that different first steps reach come out in the order of those first steps |
| StepBlocks.OneBlockOrder | internal/decision/engine.go:410-427 | two steps that the same first step reaches come out as the dependency lists below it say: the first dependency that reaches one of them decides, by a visit of its own if it reaches both |
| StepBlocks.OrderOfAnyTwo | internal/decision/engine.go:397-434 | the exact order of any two steps of any plan, from reachability and the dependency lists alone |
| StepBlocks.KeepsIndependentOrderIff | internal/decision/engine.go:393-396 | independent steps keep their order iff no dependency pulls the later one ahead |
| StepOrder.VisitKeeps | internal/decision/engine.go:410-427 | the depth-first visit keeps the three-colour invariant: emitted steps are done, violated edges lie on a cycle |
| StepOrder.Sorter.VisitStep | internal/decision/engine.go:408-427 | the recursive closure over the `state` array and the `sorted` list follows the functional search and terminates, and entry k of `sorted` is always the step at the k-th emitted position |
| StepOrder.SortStepsByDependencies | internal/decision/engine.go:397-434 | the returned list has every step as often as it was given; entry k is the step at the k-th position of the order; a dependency that does not depend back stands before its dependent in the list; the list is unchanged if every dependency points back, and, when no step is given twice, only then |
| TrustLoop.Engine.Act | internal/decision/engine.go:236-280 | each execution is recorded once for its tool, whatever ran before; without an error the result has the tool's output and no error text, with one its text and no output; the step is kept, with the confirmation flag set iff it was set or asked for |
| TrustLoop.Engine.Observe | internal/decision/engine.go:286-336 | the observation is a function of all recorded runs of the tool: success rate minus one half, and the listed issues |
| TrustLoop.FailedStepCriticalIff | internal/decision/engine.go:252-336 | a failed step with a message, observed any time after its run, is critical iff its text is blocking or fewer than one in five recorded runs of its tool succeeded |
| TrustLoop.CycleCriticalIff | internal/decision/reflector.go:201-254 | over a whole cycle of turns from any history, some observation is critical iff some turn failed with a blocking text or under one in five |
| TrustLoop.ObservedSuccessIff | internal/decision/engine.go:247-314 | a step is observed as successful iff its error is nil or has an empty message; successes are never critical and failures never expected |
| TrustLoop.MuteFailureUnseen | internal/decision/reflector.go:169-254 | a turn that failed with an empty message is recorded against its tool, but earns no correction and is not critical |
| TrustLoop.MuteCycleUnseen | internal/decision/reflector.go:71-197 | a cycle whose every failure has an empty message has no correction and never demands a full replan |
| TrustLoop.Reflect | internal/decision/reflector.go:71-163 | nil plan is an error; a plan that cannot proceed or has no observations is unchanged; otherwise full replan iff some observation is critical, none iff all are expected, corrections exactly those of the failed observations, and intent and steps kept |
| TrustLoop.BuildCorrectionSteps | internal/decision/reflector.go:169-197 | one correction for each failed observation, its fallback or a diagnostic query |
| TrustLoop.FailedInOrder | internal/decision/reflector.go:169-197 | each failed observation is listed once, at its rank among the failed ones |
| TrustLaws.TrustDeltaExact | internal/decision/engine.go:282-308 | a tool that has run has its share of successful recorded runs minus one half, within one half of zero; otherwise 0.05 for a success and -0.1 for a failure |
| TrustLaws.NoReplanIff | internal/decision/reflector.go:71-163 | over a cycle from any record, every observation is expected, so that Reflect asks for no replan, iff every tool answered without an error, with some output and no more than the threshold, 1900 by default |
| TrustLaws.TurnIssues | internal/decision/engine.go:310-328 | a turn has at most one issue: its error text, or that its output is missing or too long |
| TrustLaws.CorrectionsOfCycle | internal/decision/reflector.go:169-197 | a cycle earns one correction per turn that failed with a message, in the order of the turns: the step's fallback with the tool and the error, or else a query about the failure |
| TrustLaws.BlockingIff | internal/decision/reflector.go:256-268 | a text is blocking iff one of the six words stands somewhere in it once lowered |
| TrustLaws.FailedObservationCriticalIff | internal/decision/reflector.go:230-244 | any failed observation is critical iff its joined issues are blocking, there are at least three of them, or its trust delta is below -0.3 |
| LightGcn.BackwardIsTransposeOfForward | internal/gnn/model.go:52-131 | inner(Forward(E), G) == inner(E, Backward(G)) for every graph, every size, every E and G |
| LightGcn.PropagateSelfAdjoint | internal/gnn/model.go:93-131 | two propagations and the mean of the layers form a self-adjoint map for a symmetric adjacency |
| LightGcn.MatMulAdjoint | internal/gnn/model.go:152-169 | multiplication by a symmetric matrix is self-adjoint for the matrix inner product |
| LightGcn.NormAdjacencySymmetric | internal/gnn/model.go:52-90 | the normalized adjacency is symmetric with self-loops, repeated edges, unknown nodes and isolated nodes |
| LightGcn.MultiplyMatrices | internal/gnn/model.go:152-169 | the triple loop computes the matrix product |
| LightGcn.GnnModel.BuildAdjacency | internal/gnn/model.go:52-90 | the accumulation, degree and scaling loops compute the normalized adjacency |
| LightGcn.GnnModel.Forward | internal/gnn/model.go:93-108 | the forward pass computes (H + A H + A A H) / 3 of the embeddings, whose entries `LightGcnLaws.PropagateEntries` gives as sums over the matrices |
| LightGcn.GnnModel.Backward | internal/gnn/model.go:116-131 | the backward pass computes the same map of the gradient |
| LightGcnLaws.PropagateEntries | internal/gnn/model.go:93-131 | three times an entry of a pass is the base entry, plus its one-step sum, plus its two-step sum |
| LightGcnLaws.PropagateSpectrum | internal/gnn/model.go:93-131 | a pass multiplies a column that the matrix multiplies by c by (1 + c + c * c) / 3 |
| LightGcnLaws.EdgeJoinsItsEnds | internal/gnn/model.go:59-70 | an edge puts its weight, 1 for 0, between its two ends and nowhere else; a self-loop counts twice |
| LightGcnLaws.WeightsAdd | internal/gnn/model.go:59-70 | the weights of two lists of edges add up |
| LightGcnLaws.Handshake | internal/gnn/model.go:59-77 | the degrees add up to twice the weight of all edges between known nodes |
| LightGcnLaws.ScaledIsNormalized | internal/gnn/model.go:79-88 | an entry squared times both degrees is the weight squared, with its sign; next to a degree that is not positive it is 0 |
| LightGcnLaws.RootsOfDegreesFixed | internal/gnn/model.go:49-89 | for weights that are not negative, the normalized adjacency leaves the square roots of the degrees as they are, isolated nodes included |
| LightGcnLaws.PassFixesRootsOfDegrees | internal/gnn/model.go:49-131 | so does a whole pass over the graph |
| SqlQuery.DenoteAgree | internal/dsl/compiler.go:31-186 | two queries of one shape over tables that agree on the mentioned columns denote the same bag, through select, left join, where and group by |
| OntologyCompiler.CompileObject | internal/dsl/compiler.go:31-186 | the loops assemble the specified query, whose sources, names, refusals and meaning the rows of `OntologyLaws` and `OntologyMeaning` give, or report the first error in the source's order |
| OntologyCompiler.CompileDDL | internal/dsl/compiler.go:188-218 | one view per declared object in order, or the first refused source |
| OntologyCompiler.ModesDifferInSources | internal/dsl/compiler.go:64-135 | whenever inline mode compiles, view mode does, and only the sources differ |
| OntologyCompiler.ViewModeDenotesInlineMode | internal/dsl/compiler.go:31-218 | if the views pass every mentioned column through, of the object and of its relations' targets, both modes denote the same bag or are both rejected (the latter whenever there is an aggregate) |
| OntologyCompiler.HiddenColumnRejected | internal/dsl/compiler.go:47-57 | a mentioned column that its view does not expose makes the view-mode query rejected |
| OntologyModes.ViewModeAgreesIff | internal/dsl/compiler.go:31-218 | for every usable object without relations: the modes agree on all engines and all data on which the inline query is accepted iff the view passes every mentioned column through |
| OntologyModes.OwnColumnsPass | internal/dsl/compiler.go:31-218 | with relations too, modes that always agree need every mentioned own column (selected, filtered, aggregated, grouped, or a relation's key) passed through |
| OntologyModes.AggregatesNeverAgree | internal/dsl/compiler.go:115-133 | no usable object with an aggregate has modes that agree on all data |
| OntologyModes.PlainAggregatesRejected | internal/dsl/compiler.go:115-133 | where aggregates use declared properties that keep their names, both modes reject the object |
| OntologyCompiler.PlainProgramModesAgree | internal/dsl/compiler.go:31-218 | the modes agree, through select, left join and where, for every program whose properties keep their source names and whose filters and keys use declared properties; with an aggregate they agree in rejecting |
| OntologyMeaning.QueryDenotesDeclaration | internal/dsl/compiler.go:31-186 | on an engine that reads the seven SQL operators as comparisons, an accepted query of any object, in either mode, denotes what the declaration says: its table's rows, each repeated once per combination of related rows and at least once, those that meet every declared comparison (eq, neq, gt, gte, lt, lte, like; never NULL), and then one output per row or, with aggregates, one per distinct key with the aggregates over that key's rows |
| OntologyMeaning.ParsesIff | internal/dsl/compiler.go:59-63 | the query parses iff no property is predicted and every filter uses one of the seven operators |
| OntologyMeaning.UnparsedRejected | internal/dsl/compiler.go:136-153 | a predicted property or an unknown filter operator, which becomes no operator at all, gets the query rejected in either mode |
| OntologyLaws.RowsAnswered | internal/dsl/compiler.go:87-153 | how often a row is among those answered from: as often as in the table, times the matches of each relation and at least once, if it meets the filters, and else never |
| OntologyLaws.MatchesCounted | internal/dsl/compiler.go:87-113 | a relation matches a row as often as rows of the target have an equal key |
| OntologyLaws.GroupCount | internal/dsl/compiler.go:126-133 | a group holds every row with its key, as often as it occurs |
| OntologyLaws.RelationsInOrder | internal/dsl/compiler.go:86-113 | every relation from the object to a declared one is joined once, in the order of the program |
| OntologyLaws.SourcesRead | internal/dsl/compiler.go:86-170 | the object and each target are read from their view, or from the latest Parquet files of their dataset under the data root, and joined under the target's name on the declared keys |
| OntologyLaws.ViewsInOrder | internal/dsl/compiler.go:188-218 | the DDL is refused iff some declared object's source is, and else creates one view per declared object in order, over its latest files, each property under its name from its source field |
| OntologyLaws.CompileOutcome | internal/dsl/compiler.go:31-186 | which error is reported: no such object; then, inline only, the first relation whose target has a bad path; then the first bad filter value; then, inline only, the own bad path; everything else compiles |
| OntologyLaws.OutputNames | internal/dsl/compiler.go:46-124 | the outputs are named by the properties in order, each behind its placeholders, and then by the aliases of the aggregates |
| OntologyMeaning.GroupSharesProperties | internal/dsl/compiler.go:126-133 | in an accepted query with aggregates all rows of a group have the same properties |
| OntologyMeaning.RowKeysExact | internal/dsl/compiler.go:126-133 | the keys are exactly those that occur, each once |
| OntologyMeaning.GroupsCoveredIff | internal/dsl/compiler.go:47-133 | the select list is grouped properly iff there is no aggregate or every source field is the name of a property without aggregate |
| OntologyMeaning.AggregatedPropertyRejected | internal/dsl/compiler.go:115-133 | an aggregate over a field that a property selects is rejected in either mode |
| OntologyExamples.UndeclaredAggregateOnlyInline | internal/dsl/compiler.go:115-218 | an aggregate over an undeclared field next to groupable properties is answered inline and rejected over the view, on all data |
| OntologyExamples.StatisticheOnlyInline | internal/dsl/compiler_test.go:79-97 | the repository's own aggregate example is answered inline and rejected over the view |
| OntologyExamples.RenamedOnlyInline | internal/dsl/compiler.go:47-57 | a renamed property is answered inline and rejected over the view |
| OntologyExamples.SwappedDiffer | internal/dsl/compiler.go:193-203 | two properties that swap names are answered in both modes with the values swapped |
| WriteLock.RunKeeps | internal/storage/duckdb.go:127-390 | every interleaving keeps: locked iff one holder, each acquisition's unlock count, no unlock of a free mutex |
| WriteLock.OneWriterAtATime | internal/storage/duckdb.go:127-245 | at most one write statement or write transaction is active at a time |
| WriteLock.EveryAcquisitionUnlockedOnce | internal/storage/duckdb.go:348-390 | with racing and repeated Commit and Rollback no acquisition is unlocked twice, and each is unlocked once when nothing holds the lock |
| WriteLock.FinishFreesLock | internal/storage/duckdb.go:348-390 | finishing an open write transaction frees the lock; finishing it again changes nothing |
| WriteLock.WriterGetsIn | internal/storage/duckdb.go:127-245 | in every interleaving whoever is outside takes a free lock, for a statement or for BeginTX, which passes it on to its transaction |
| WriteLock.LockCanBeFreed | internal/storage/duckdb.go:127-390 | from every state of every interleaving at most two steps free the lock |
| ExecTx.ExecTx | internal/storage/duckdb.go:312-345 | the retry loop over BeginTX, fn, Commit and Rollback gives the specified answer, frees the lock, releases what it acquired and commits what the specification counts |
| ExecTx.AtMostFourRuns | internal/storage/duckdb.go:312-345 | fn runs at most four times and the "exhausted" return is unreachable |
| ExecTx.AnswerExact | internal/storage/duckdb.go:312-345 | the answer is that of the attempt the loop ends with, the first that is not retried or the fourth: its begin error, nil, or its own error; every attempt up to it has run fn, it too if it began |
| ExecTx.EndsSomewhere | internal/storage/duckdb.go:312-345 | every script ends at exactly one attempt |
| ExecTx.FourFailuresFourRuns | internal/storage/duckdb.go:312-345 | four serialization failures run fn four times, and the fourth error is the answer |
| ExecTx.LeftOpenAnswersTruly | internal/storage/duckdb.go:312-345 | if fn never finishes the transaction, nil iff one attempt committed, and no attempt follows a committed one |
| ExecTx.OwnRollbackAnswersNil | internal/storage/duckdb.go:312-345 | a fn that rolls back itself and returns nil makes ExecTx answer nil without a commit |
| ExecTx.AnswersTrulyIff | internal/storage/duckdb.go:312-345 | the answer is true iff no fn that runs finishes the transaction against its own result, where attempt j runs iff it begins and every earlier one began and failed with a serialization error |
| ExecTx.Database.BeginTX | internal/storage/duckdb.go:217-245 | the lock stays held iff a transaction is handed out |
| ExecTx.TX.Commit | internal/storage/duckdb.go:348-368 | idempotent; the first finish releases the lock once |
| ExecTx.TX.Rollback | internal/storage/duckdb.go:371-390 | idempotent; the first finish releases the lock once and commits nothing |
| CircuitBreaker.CircuitBreaker.Begin | internal/middleware/circuitbreaker.go:56-72 | refused iff at least threshold failures come after the last success or reset and the last failure is no further back than the cooldown, in every interleaving; stated on the recorded events alone |
| CircuitBreaker.CircuitBreaker.End | internal/middleware/circuitbreaker.go:74-90 | a late completion keeps the three states in step with that two-number specification |
| CircuitBreaker.CircuitBreaker.Reset | internal/middleware/circuitbreaker.go:99-104 | a reset closes the breaker, clears its count and is recorded |
| CircuitBreaker.FailedProbeRefusesAgain | internal/middleware/circuitbreaker.go:56-90 | a failing probe refuses again for exactly one cooldown |
| CircuitBreaker.RefusesIff | internal/middleware/circuitbreaker.go:56-104 | the count and the time the breaker keeps refuse exactly as the events do: failures that no success and no reset follows, and the last failure |
| CircuitBreaker.ClearedFailures | internal/middleware/circuitbreaker.go:85-104 | a success or a reset makes everything before it as if it had never been |
| CircuitBreaker.ForgivenAfterClear | internal/middleware/circuitbreaker.go:56-104 | after a success or a reset, fewer than threshold failures never refuse, whatever happened before |
| RateLimit.RateLimitStore.Allow | internal/middleware/ratelimit.go:294-325 | for every limit of at least 1 and every window the store makes the step of its run; for windows up to two minutes it admits iff fewer than limit of all admissions so far fall in the window that ends now, after any calls and cleanups |
| RateLimit.RateLimitStore.Cleanup | internal/middleware/ratelimit.go:266-292 | drops exactly what is two minutes old from every key, whatever the windows, and keeps every key with a window up to that deciding as its history |
| RateLimit.RunKeeps | internal/middleware/ratelimit.go:266-325 | over every run of calls and cleanups each key keeps a sorted, spaced history of which only expired admissions are missing |
| RateLimit.DecideIff | internal/middleware/ratelimit.go:294-325 | admitted iff fewer than limit admissions fall in the window that ends now; else the wait is until the oldest of them leaves it |
| RateLimit.NoBurst | internal/middleware/ratelimit.go:294-325 | no interval of window length contains more than limit admissions |
| RateLimit.StoreNeverBursts | internal/middleware/ratelimit.go:266-325 | in every store reached by calls and cleanups the burst bound holds for every key |
| RateLimit.AdmissionKeepsSpacing | internal/middleware/ratelimit.go:294-325 | every admission keeps admissions that are limit apart at least a window apart |
| RateLimit.RetryAfterExact | internal/middleware/ratelimit.go:294-325 | for one history: after a rejection at t with retry-after r, a later call is rejected iff it comes before t + r |
| RateLimit.RetryAfterOverRun | internal/middleware/ratelimit.go:266-325 | over a run of the store: after a rejection at t with r, and any calls for other keys, cleanups and early calls for the key, a call for the key is rejected before t + r and admitted from then on |
| RateLimit.CleanupInvisibleIff | internal/middleware/ratelimit.go:266-292 | the cleanup never changes a later decision iff the window is at most two minutes |
| RateLimit.ForgottenAdmission | internal/middleware/ratelimit.go:266-292 | for any longer window an admission is forgotten too early |
| Retry.CircuitOpenIsFinal | internal/middleware/retry.go:37-74 | the breaker's refusal is not a retryable error |
| Retry.RetriedExactly | internal/middleware/retry.go:34-74 | retried iff a context or network error, a code from 13 to 15, or, with no code or one outside 3 to 16, a text with "status code 5" in it |
| Retry.RunsBounded | internal/middleware/retry.go:79-123 | between one and MaxRetries + 1 runs, one wait between runs |
| Retry.OnlyRetryableRetried | internal/middleware/retry.go:79-123 | the runs end at the first attempt that is the last allowed, succeeds, fails with an error that is not retried, or is cancelled while it waits, and that attempt settles the answer |
| Retry.WaitBounds | internal/middleware/retry.go:98-110 | with jitter factor at most 1 a wait lies between the delay and twice the delay, capped |
| Retry.WaitExact | internal/middleware/retry.go:98-110 | a wait is the delay plus its random share of the jitter factor, rounded down, unless MaxDelay is below that |
| Retry.WaitsDouble | internal/middleware/retry.go:98-120 | the wait after run k is for the initial delay doubled k times, with the random number drawn then |
| Retry.WaitsClimbIff | internal/middleware/retry.go:79-123 | with jitter factor at most 1 and a cap that is not negative, in every run the waits never decrease and never exceed MaxDelay iff the initial delay is not negative or there are no two waits |
| Retry.NegativeDelayFalls | internal/middleware/retry.go:79-123 | with a negative initial delay the second wait is shorter than the first |
| Retry.Run | internal/middleware/retry.go:79-123 | the loop performs exactly the specified runs and waits, and no run at all for negative MaxRetries |
| RequestChain.RunKeeps | internal/app/app.go:224-237 | every interleaving of requests through retry, bulkhead and breaker keeps permits, call counts and the breaker's pending calls in balance |
| RequestChain.PermitsConservedInEveryRun | internal/middleware/bulkhead.go:68-103 | free permits plus attempts in flight equal the pool size, for unary and streaming requests |
| RequestChain.HandlerCallsBounded | internal/middleware/retry.go:141-158 | a unary request reaches its handler at most MaxRetries + 1 times, a stream at most once |
| RequestChain.OpenRefusalNeverRetried | internal/middleware/circuitbreaker.go:56-90 | once the open breaker refuses a request, no later step starts an attempt or a handler call for it |
| RequestRetry.FinishedLikeTheLoop | internal/middleware/retry.go:141-150 | in every interleaving a finished request made exactly the attempts the retry loop makes on the answers it heard, and succeeded iff the loop does |
| RequestRetry.RunFollows | internal/middleware/retry.go:79-123 | at every step a request's attempts and phase agree with the answers it has heard so far |
| RequestBreaker.TurnedAwayIff | internal/middleware/circuitbreaker.go:56-142 | in every interleaving a request past the bulkhead is turned away for good iff, of the answers handlers have given so far, at least threshold were errors after the last success or reset, the last of them within the cooldown; else it reaches its handler |
| RequestBreaker.RunTells | internal/middleware/circuitbreaker.go:74-104 | in every interleaving the breaker has seen exactly the answers given and the resets, in order, an error as a failure and its absence as a success |
| RequestBreaker.PermitGrantedIff | internal/middleware/bulkhead.go:68-103 | in every interleaving an attempt passes the bulkhead iff it has no pool or fewer attempts are in flight there than the pool has permits; else it failed with an error that is retried |
| RequestBreaker.RequestNeverStuck | internal/app/app.go:224-237 | a request that has not finished can always make its next step |
| RequestBreaker.PoolOfProcedure | internal/middleware/bulkhead.go:119-143 | which pool a procedure uses, by the services it names: query services win, then ingestion, then chat |
| TokenRevocation.IssuedTokenStaysRevoked | internal/auth/jwt.go:34-94 | a token whose effective lifetime, one hour by default, is at most the store's is never accepted after its revocation, although the cleanup forgets |
| TokenRevocation.RevokedForGoodIff | internal/middleware/auth_middleware.go:235-308 | a revoked token stays refused in every run iff it expires within the store's lifetime plus one tick |
| TokenRevocation.HeldIff | internal/middleware/auth_middleware.go:254-308 | the store holds an id iff no cleanup since its last revocation found that older than the store's lifetime |
| TokenRevocation.IssuedTokenLifetime | internal/auth/jwt.go:34-94 | an issued token is good for its lifetime, one hour by default, to the second |
| TokenRevocation.TokenRevocationStore.Authenticate | internal/middleware/auth_middleware.go:235-250 | accepts iff the claims are sound, now lies in [notBefore, expiresAt), and the id was never revoked or a cleanup since its last revocation found that too old |
| TokenRevocation.TokenRevocationStore.RevokeId | internal/middleware/auth_middleware.go:273-277 | the store follows its log |
| TokenRevocation.TokenRevocationStore.Clean | internal/middleware/auth_middleware.go:290-308 | a cleanup tick follows the log |
| LruCache.Cache.Get | internal/memory/embed.go:76-88 | a hit iff fewer than maxSize distinct keys were put after the last put of the key and that put has not expired, and then its value; stated on the puts alone |
| LruCache.Cache.Insert | internal/memory/embed.go:90-114 | the map holds the latest values of the maxSize most recently put keys and `order` lists them once each in recency order, after every sequence of puts |
| LruCache.CachedIffRecent | internal/suggestion/cache.go:27-58 | a key is kept iff fewer than n distinct keys were put after it |
| LruCache.LatestIsLast | internal/suggestion/cache.go:34-58 | the value kept for a key is that of its last put, and the keys put after it are those of the later puts |
| LruCache.RecencyDistinct | internal/suggestion/cache.go:34-58 | the recency list has no key twice |
| LruCache.RecencyMembers | internal/suggestion/cache.go:34-58 | the recency list has exactly the keys ever put |
| Chunking.Chunk | internal/memory/embed.go:198-223 | the loop ends and returns the specified chunks, none for no words |
| Chunking.PieceLengths | internal/memory/embed.go:204-221 | all chunks but the last have exactly 512 words |
| Chunking.PiecesOverlap | internal/memory/embed.go:204-221 | a later chunk repeats the last 128 words of the one before and adds at least one |
| Chunking.PieceCount | internal/memory/embed.go:204-221 | one chunk for the first 512 words and one more for each further 384 or part of them |
| Chunking.RebuiltIsText | internal/memory/embed.go:198-223 | dropping the overlaps and concatenating gives back the words |
| Ranking.CauchySchwarz | internal/suggestion/ranker.go:19-24 | the squared inner product is at most the product of the squared norms, for vectors of any length |
| Ranking.CosineInUnit | internal/suggestion/ranker.go:15-33 | the similarity of any two vectors lies in [0, 1] |
| Ranking.CosineOfSelf | internal/suggestion/ranker.go:15-33 | a vector other than zero has similarity 1 with itself |
| Ranking.CosineExact | internal/suggestion/ranker.go:15-33 | the squared similarity times both squared norms is the squared inner product, and the similarity is 0 for a negative one |
| Ranking.CosineSimilarity | internal/suggestion/ranker.go:15-33 | the accumulating loop computes the specified similarity, 0 for unequal lengths, no components or a zero vector |
| Ranking.MaxUsage | internal/suggestion/ranker.go:59-67 | the greatest count, at least 0 and attained when positive |
| Ranking.SuggestionExact | internal/suggestion/ranker.go:77-96 | a suggestion carries the tool's own texts, its cosine, its count as a share of the greatest one, and seven parts of the first to three of the second as its composite |
| Ranking.ReasonIff | internal/suggestion/ranker.go:106-120 | which of the five reasons is given for which similarity and usage |
| Ranking.CompositeInUnit | internal/suggestion/ranker.go:80-86 | every composite is at most 1, and at least 0 when no count is negative |
| Ranking.CompositeNonNegativeIff | internal/suggestion/ranker.go:80-86 | a tool's composite is non-negative for every request iff its count is, or nothing has been used |
| Ranking.NormalizedKeepsOrder | internal/suggestion/ranker.go:35-57 | normalization never changes the order of two suggestions and maps into [0, 1] |
| Ranking.NormalizedSpans | internal/suggestion/ranker.go:35-57 | the best score becomes 1, the worst 0 unless all are equal, every other one its share of the way between them, and nothing but scores changes |
| Ranking.NormalizeScores | internal/suggestion/ranker.go:35-57 | the in-place rewriting computes that normalization and changes nothing but scores |
| Ranking.Rank | internal/suggestion/ranker.go:69-104 | a permutation of the tools' normalized suggestions, descending by score and by seven parts similarity to three parts usage |
| Migrations.CommitsAscendAcrossRuns | internal/migrate/migrate.go:48-129 | across any number of failing runs whose version query succeeds, committed versions strictly increase |
| Migrations.NoneCommittedTwice | internal/migrate/migrate.go:83-117 | whatever fails, no version commits twice or when already recorded |
| Migrations.RunLeavesPrefix | internal/migrate/migrate.go:83-117 | a run commits an ordered prefix of the pending versions, all of them if it returns nil |
| Migrations.CompleteRunRecordsAll | internal/migrate/migrate.go:64-129 | after a nil run every version in the directory above the start is recorded and clean |
| Migrations.StopsAtFirstFault | internal/migrate/migrate.go:83-117 | a run stops at the first pending version with a fault or already recorded, and commits exactly those before it; that version itself only if nothing but the reply of its commit was lost |
| Migrations.RunSucceedsIff | internal/migrate/migrate.go:48-129 | a run returns nil iff it can start and every pending version is without a fault and not yet recorded |
| Migrations.OnlyUpFilesCommit | internal/migrate/migrate.go:72-81 | over any runs, whatever fails, every committed version has an entry that ends in .up.sql |
| Migrations.UpFileIsLast | internal/migrate/migrate.go:69-81 | each version is run from the last entry that names it |
| Migrations.PendingExact | internal/migrate/migrate.go:83-85 | the pending list holds exactly the discovered versions in range |
| Migrations.AlwaysAboveIff | internal/migrate/migrate.go:58-62 | every run commits only above the current version iff no version between its start and the current one is missing |
| Migrations.FailedQueryReorders | internal/migrate/migrate.go:58-62 | after a failed version query version 1 commits after version 3 |
| Migrations.Database.RunMigrations | internal/migrate/migrate.go:48-129 | the discovery and version loops perform exactly the specified run, and the scripts committed are those of the files chosen for its commits, in order |
| ToolRepository.ListIsCurrent | internal/repository/metadata.go:402-425 | in every sequential history without a short read or a hidden change, an answered ListTools is the current contents of the table |
| ToolRepository.StepCoherentIff | internal/repository/metadata.go:402-537 | a step makes the remembered list differ from the table iff a read misses a row that scans, or a lost reply hides a visible change |
| ToolRepository.FetchedIff | internal/repository/metadata.go:410-423 | a read that stops early sees everything iff no missed row scans |
| ToolRepository.ShortReadIsRemembered | internal/repository/metadata.go:410-425 | a short read is served again |
| ToolRepository.EditTouchesOneTool | internal/repository/metadata.go:473-537 | none of the five changes touches the rows of another tool |
| ToolRepository.EditedTool | internal/repository/metadata.go:473-537 | create adds the one row, delete leaves none, the updates change exactly the named columns of the tool's row |
| ToolRepository.EditedRecord | internal/repository/metadata.go:473-537 | as listed, a created tool is the one given, an update gives all but the id, the code update the code alone, the status update the status alone |
| ToolRepository.MetadataRepository.ListTools | internal/repository/metadata.go:402-425 | hit, expiry, wrong type, query failure and row loop follow the specified step and answer |
| ToolRepository.MetadataRepository.CreateTool | internal/repository/metadata.go:473-483 | inserts and drops the list on success, changes neither on refusal, fails on a duplicate id |
| ToolRepository.MetadataRepository.UpdateTool | internal/repository/metadata.go:485-495 | updates by id and drops the list on success |
| ToolRepository.MetadataRepository.UpdateToolCode | internal/repository/metadata.go:497-506 | updates the code by id and drops the list on success |
| ToolRepository.MetadataRepository.UpdateHealthStatus | internal/repository/metadata.go:508-517 | updates the status by id and drops the list on success |
| ToolRepository.MetadataRepository.DeleteTool | internal/repository/metadata.go:528-537 | deletes by id and drops the list on success |
| ToolRepository.ToolCache.Get | internal/repository/cache.go:38-51 | a hit iff the entry is there and not expired; refreshes its access time, or drops it |
| ToolRepository.ToolCache.Set | internal/repository/cache.go:53-62 | stores the entry, evicting at most one other when full |
| ToolRepository.ToolCache.EvictLRU | internal/repository/cache.go:91-110 | drops one least recently accessed entry unless its key is empty; never replaces the list |
| ToolRepository.ToolCache.CleanupExpired | internal/repository/cache.go:112-131 | drops exactly the expired entries |

## Left out

- Concurrent ListTools: a write between the query and the cache update can leave a stale list, so only sequential histories are modelled.
- Aliasing: the cached tool slice is shared with callers in the source; the model's lists are values.
- Row order: SELECT without ORDER BY is taken to return rows in table order.
- Migrations.Database.RunMigrations: does not model 64-bit wrap-around of the version counter; parsing of file names is a given number per entry; scripts do not touch schema_migrations.
- Retry: overflow of the doubled delay is not modelled.
- RequestChain: request timeouts and the other interceptors are not part of the chain; an error is kept as the retry loop's verdict on it.
- RateLimit.RateLimitStore: limit and window are fixed per key; the limit is at least 1, since with 0 the source indexes an empty list.
- LightGcn.MultiplyMatrices: both operands are non-empty, since the source reads their first rows; random initialization is a parameter.
- OntologyCompiler: the SQL text itself apart from a missing operator and a name suffix outside its quotes, and the path, numeric and value checks, which are given predicates; where an object is declared twice the compiler reads the first and the view is the last, so agreement is stated for objects declared once.
- OntologyModes.OwnColumnsPass: does not say that the key of a relation's target must be passed through; for those columns passing through is shown to be sufficient only.
- ExecTx: panics inside fn, context cancellation between attempts and log output.
- TrustLoop: reasons, summaries, confidences and the numbers inside the truncation issue are texts that decide nothing; the length of an output counts characters, where the source counts bytes.
- Chunking: splitting the text into words and joining the words of a chunk by spaces.
- Ranking.Rank: the order of equal scores, which sort.Slice does not promise; sorting itself is a library call, modelled by a selection sort.
- The LLM retry provider's breaker, the BPR loss of the trainer and the repair heuristics, whose documented promises do not hold of the code.
- Plan and Admit of the decision engine, which build prompts and texts; raw HTTP authentication, which does not consult the revocation store.
- Signatures, encryption, ingestion, MCP, the sandbox, telemetry, routes, the Python sidecar and the frontend, which are I/O, foreign libraries or user interface.
