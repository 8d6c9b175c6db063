# Verified models of the NPS Go SDK

This project models the state machines, compilers and codecs of the NPS SDK that do not depend on a
transport, and proves what they promise for all inputs and all call sequences. Source files are cited
by their path in the SDK repository.

* **Task DAGs** (`nop/`): validation with Kahn's sort, the K-of-N scheduler under every completion
  order, saga compensation, the portable topology and its compensation.
  Files: `Digraph`, `DagValidator`, `Scheduler`, `GraphSearch`, `RunDag`, `RunTheorems`, `Saga`,
  `StringOrder`, `PortableTopology`, `PortableCompensation`.
* **LLM context store** (`nwp/llm_context_store.go`): reserve, commit, abort, release and sweep over
  three coupled maps. `ContextStore` holds the atomic steps, `ContextInvariants`, `ContextRuns`,
  `ContextLedger` and `ContextLifecycle` what holds over every call sequence, `ContextAnswers` and
  `ContextLaws` when calls succeed and who can change or end a context, `InMemoryContextStore` the class
  that updates the maps in place.
* **Filter to SQL** (`nwp/filter_translator.go`, `nwp/sql_query_builder.go`,
  `nwp/sql_memory_node_provider.go`): JSON filter, emitted text, rebinding to positional
  placeholders, and what a driver reads in the result. Files: `Flatten`, `Decimal`,
  `CharClass`, `SqlFilter`, `SqlDenotation`, `SqlRebind`, `SqlLexing`, `SqlParsing`, `SqlMeaning`,
  `SqlGaps`, `SqlNumbering`, `SqlTranslation`, `FilterTranslator`, `SqlQuery`, `SqlCounterexamples`.
* **Certificate authority** (`nip/ca_service.go`, `nip/ca_store.go`): `CaModel`, `CaInvariants`,
  `CaRuns`, `CaAnswers`, `CaCounterexample`, `CaService`.
* **Registry and delegation cache** (`ndp/registry_profile.go`, `nop/cluster_delegation.go`):
  `RegistryModel`, `RegistryAdmission`, `RegistryProfile`, `ClusterDelegation`.
* **Parsers and codecs**: conditions (`ConditionParsing`, `ConditionValues`,
  `ConditionTokens`, `ConditionEvaluator`),
  inclusion proofs (`MerkleInclusion`), the required-features header (`FeatureHeader`), binary vectors
  (`BinaryVector`).

`dafny verify dfyconfig.toml` checks everything.

## How the source is modelled

Objects whose methods update fields are classes (`InMemoryLlmContextStore`, `InMemoryNipCaStore`,
`NipCaService`, `NwpFilterTranslator`, `SqlQueryBuilder`, `ConditionParser`, `NdpRegistryProfile`,
`ClusterDelegationResolver`, `PortableCompensator`); their methods are proved equal to step functions
on values, and the theorems are about those functions. Every public method of the context store and of
the registry is one atomic step, as it runs under one lock or on one goroutine. `ResolveActive` releases
its lock for the lookup, so it is two steps with anything in between.

Clock readings, random identifiers, signature verdicts, worker outcomes, the number syntax and the
resolution of paths are parameters and may take any value. Hashes are functions with results of the
right length; nothing assumes that they are injective everywhere. Reservation identifiers and session
NIDs are taken to be fresh; colliding context identifiers are modelled. Strings are sequences of
characters, and case folding of field names is that of ASCII. Times are integers.

Four promises do not hold as they stand, and are proved with their exact condition:

* A node whose `input_from` names a node that no edge joins to it may never start, although the DAG is
  valid; the run then reports success (`SelfInputStrandsNode`, `RunStranded`). A clean run covers every
  node if and only if every node can be derived from its inputs (`CoversAllIffRunnable`).
* A session that is renewed loses its parent, and a group that is renewed loses its role. Revoking such a
  group does not reach its sessions: one that was renewed goes on verifying
  (`RenewedSessionOutlivesGroup`), one that was not can be renewed afterwards
  (`RenewalRevivesSession`). `GroupRevokeEndsSession` proves that a session is at an end, whatever is
  called later, if and only if the group's current record has its role or the session was revoked
  before. It takes validity periods that are not negative.
* A filter with an empty clause among the members of an object, with a field that has no operators, or
  with an array where a scalar belongs, is emitted as text that is no SQL condition; `FilterSelects`
  proves that these are all such filters. Elsewhere empty clauses are dropped without an error, and
  `{"$or": []}`, `{"$not": {}}` or `{"$or": [{}, ...]}` select rows they do not denote, or miss rows they
  do. `GapAtRow` says exactly when one dropped part matters at one row. For whole filters,
  `FilterQueryExactly` proves that the query selects what the filter denotes if and only if every empty
  clause is the unit of the `$and` or `$or` it stands in. There a row may answer every test either
  way, and no test occurs twice or has an empty list. Without that, the condition suffices and other
  tests can cover a gap (`CoveredGap`).
* A condition is cut off at the first comparison whose left side is a boolean literal; `true == false`
  evaluates to true (`LiteralCutsComparison`). `PrintedEvaluates` gives the value of every condition,
  and proves that the parser reaches the end exactly if there is no such comparison and no operand is in
  error.

Two more facts are worth knowing: `min_required` is read as a signed 64-bit number, so a huge value acts
like a negative threshold, and dropping an entry of the delegation cache forgets its epoch
(`DroppedEntryGoesBack`).

## Model

| member | source | states |
|---|---|---|
| `DagValidator.ValidateDag` | nop/dag_validator.go:26-136 | accepts exactly the DAGs with 1 to 32 distinct nodes, resolved references, short conditions and no cycle; the order is a permutation of the nodes with every source before its target; a rejection carries the code of the first failed check |
| `DagValidator.AcyclicHasEnds` | nop/dag_validator.go:73-95 | the start-node and end-node checks never reject an acyclic DAG |
| `DagValidator.AllEmitted` | nop/dag_validator.go:105-135 | Kahn's loop emits every node exactly if the edge relation is acyclic, and then in topological order |
| `DagValidator.Kahn` | nop/dag_validator.go:105-135 | the queue loop ends with counters that match the emitted nodes and with nothing left to emit |
| `Scheduler.AreDepsDone` | nop/orchestrator.go:533-551 | the dependency test equals the threshold on completed and skipped inputs |
| `Scheduler.KOfN` | nop/orchestrator.go:533-568 | a node with inputs may start once k of them completed or were skipped, and is lost once fewer than k can; k is min_required, or all inputs if that is 0 |
| `Scheduler.NotBoth` | nop/orchestrator.go:533-568 | no node is startable and hopeless at once |
| `Scheduler.VerdictsPersist` | nop/orchestrator.go:533-568 | recording more states never withdraws that a node is startable or hopeless |
| `Scheduler.SafeLogBooks` | nop/orchestrator.go:208-299 | in a safe log the in-flight nodes, the finished nodes and the launches agree and are disjoint as they must be |
| `Scheduler.OncePerNode` | nop/orchestrator.go:208-299 | in a safe log no node is launched twice |
| `GraphSearch.CanReachEndNode` | nop/orchestrator.go:585-605 | the breadth-first search answers reachability along edges, both ways |
| `RunDag.Run` | nop/orchestrator.go:184-329 | under every worker behaviour and completion order: at most the given number of nodes run at once, each is launched once, in turn and only when satisfied; every event happens in a round that was not cancelled, a node ends as its worker reports, at a moment when all that can be launched is; the run is cancelled exactly if nodes are left when a cancelled round begins, and aborted exactly by the first failure that dooms an end node |
| `RunDag.FailHopeless` | nop/orchestrator.go:228-252 | of the ready nodes exactly those below their threshold are recorded as failed and the others kept for launch |
| `RunDag.LaunchReady` | nop/orchestrator.go:254-267 | launches ready nodes only, and all of them unless the slots are full |
| `RunTheorems.EveryNodeRunsExactlyOnce` | nop/orchestrator.go:184-299 | in every clean run of an accepted DAG whose inputs are edges every node is launched once and recorded once |
| `RunTheorems.RunValidated` | nop/orchestrator.go:184-329 | such a run succeeds with a state for every node |
| `RunTheorems.SameNodesForEveryOrder` | nop/orchestrator.go:184-299 | all clean runs finish the same nodes, whatever the order and the number of slots |
| `RunTheorems.CoversAllIffRunnable` | nop/orchestrator.go:533-551 | a clean run finishes all nodes if and only if every node can be derived from its inputs |
| `RunTheorems.SelfInputStrandsNode` | nop/orchestrator.go:533-551 | every clean run of a valid DAG whose only node names itself as input has an empty log |
| `RunTheorems.RunStranded` | nop/orchestrator.go:184-329 | the run of that DAG reports success |
| `Saga.RunSagaCompensation` | nop/orchestrator.go:690-757 | every completed node with an action is compensated once and targets before sources; counts add up; strict mode with a missing action compensates none |
| `PortableTopology.StablePortableTopology` | nop/portable_profile.go:221-261 | succeeds exactly if every dependency is known and there is no cycle, and returns the lexicographically least topological order |
| `PortableTopology.LeastOrderUnique` | nop/portable_profile.go:221-261 | there is only one such order, so map iteration cannot show |
| `PortableCompensation.PortableCompensator.CollectAll` | nop/portable_profile.go:276-286 | the recursive walk collects exactly the direct and indirect dependencies of the failed node |
| `PortableCompensation.PortableCompensator.Compensate` | nop/portable_profile.go:263-323 | which nodes are compensated, in which order, with which states and events, for every policy, and the error returned |
| `PortableCompensation.DueInReverse` | nop/portable_profile.go:288-309 | the due nodes are the completed ancestors with an action, once each, dependents before dependencies |
| `PortableCompensation.FailureLast` | nop/portable_profile.go:303-322 | a strict run is a prefix of the due list and only its last compensation can have failed |
| `PortableCompensation.MarkedState` | nop/portable_profile.go:311-320 | compensated nodes show their verdict, all others keep their state |
| `ContextInvariants.SweepKeeps` | nwp/llm_context_store.go:685-711 | sweeping keeps the links between contexts, reservations and outcomes, and the quota |
| `ContextInvariants.ReserveKeeps` | nwp/llm_context_store.go:199-263 | reserving keeps them |
| `ContextInvariants.CommitKeeps` | nwp/llm_context_store.go:266-337 | committing keeps them |
| `ContextInvariants.AbortKeeps` | nwp/llm_context_store.go:340-356 | aborting keeps them |
| `ContextInvariants.ReleaseKeeps` | nwp/llm_context_store.go:359-407 | releasing keeps them |
| `ContextRuns.Reachable` | nwp/llm_context_store.go:199-407 | the invariant holds after every call sequence |
| `ContextRuns.QuotaAlways` | nwp/llm_context_store.go:535-554 | a principal's live contexts and pending allocations together never exceed the limit |
| `ContextRuns.OneOpenMutation` | nwp/llm_context_store.go:564-600 | a context has at most one open append or reset, and meanwhile it stays active with the reserved version and transcript |
| `ContextRuns.BusyMeansOpen` | nwp/llm_context_store.go:589-621 | busy outcomes and open reservations correspond one to one by key |
| `ContextRuns.HeldCommitSucceeds` | nwp/llm_context_store.go:266-337 | committing an open append or reset never fails and returns the successor of the reserved version |
| `ContextLedger.StoreRefinesLedger` | nwp/llm_context_store.go:266-337 | version and transcript of every context are those of an append-only history that only successful commits extend |
| `ContextLedger.ReceiptVersions` | nwp/llm_context_store.go:266-405 | a commit or release that creates a version hands out 1 for an identifier that was not stored, and otherwise one more than the history has, modulo 2^64 |
| `ContextLedger.VersionsConsecutive` | nwp/llm_context_store.go:266-405 | of two successive versions of an identifier, in any run, the second is the successor of the first, or 1 once the first context is gone |
| `ContextLedger.ForkStartsAtParentVersion` | nwp/llm_context_store.go:214-243 | a fork starts from its parent's transcript at the parent's version |
| `ContextLifecycle.StaysClosed` | nwp/llm_context_store.go:589-610 | a resolved reservation never opens again |
| `ContextLifecycle.ResolvedOnce` | nwp/llm_context_store.go:334-356 | a reservation is resolved by at most one commit or abort |
| `ContextLifecycle.FinalUntilSwept` | nwp/llm_context_store.go:612-621 | a final outcome stays under its key until a sweep after its deadline |
| `ContextLifecycle.KeyAdmitsAgainOnlyAfterSweep` | nwp/llm_context_store.go:209-213 | a key admits a second reservation only after the first was resolved and its outcome swept |
| `ContextAnswers.SweepExactly` | nwp/llm_context_store.go:685-711 | which contexts a sweep removes, which become tombstones, and that the rest stays |
| `ContextAnswers.ReserveExactly` | nwp/llm_context_store.go:199-263 | a request is reserved if and only if it is proper and supported, its key is free, the caller's own context is live, idle and at the version named, with the same binding, and there is room; what is granted, and every other answer |
| `ContextAnswers.ReleaseExactly` | nwp/llm_context_store.go:359-405 | a release takes effect if and only if it is supported and valid, its key is free, and the caller owns the live, idle context at exactly the version named; the version it creates, and every other answer |
| `ContextLaws.CommitExactly` | nwp/llm_context_store.go:266-337 | a commit succeeds if and only if its reservation is open and a new context finds an identifier; owner, version, transcript, binding and deadline of the entry it writes, and that it writes nothing else |
| `ContextLaws.AbortExactly` | nwp/llm_context_store.go:340-356 | an abort frees the context and changes no version and no transcript |
| `ContextLaws.VersionExpires` | nwp/llm_context_store.go:516-533 | in every run a committed version expires the granted lifetime after its commit: as asked for up to the maximum, else the default for a new context, the context's own for an append or reset, the parent's remaining seconds rounded up for a fork |
| `ContextLaws.ChangedByOwner` | nwp/llm_context_store.go:564-579 | in every run a stored context keeps its owner, and only calls of its owner at its current version change it |
| `ContextLaws.LiveUntilEnded` | nwp/llm_context_store.go:359-405 | in every run a live context stays live until it is swept at its deadline or its owner releases its current version |
| `ContextLaws.KeysDiffer` | nwp/llm_context_store.go:757-759 | callers, actions and keys without the separator never share an idempotency entry |
| `InMemoryContextStore.InMemoryLlmContextStore.constructor` | nwp/llm_context_store.go:136-176 | defaults of the options and the empty store |
| `InMemoryContextStore.InMemoryLlmContextStore.SweepLocked` | nwp/llm_context_store.go:685-711 | updates the maps as the sweep step |
| `InMemoryContextStore.InMemoryLlmContextStore.CountLive` | nwp/llm_context_store.go:535-554 | the loop counts exactly the principal's live contexts |
| `InMemoryContextStore.InMemoryLlmContextStore.DrawContextId` | nwp/llm_context_store.go:669-683 | the first of at most eight draws that is not taken, or an error |
| `InMemoryContextStore.InMemoryLlmContextStore.ReserveMutation` | nwp/llm_context_store.go:199-263 | updates the maps as the reserve step and keeps the invariant |
| `InMemoryContextStore.InMemoryLlmContextStore.CommitReservation` | nwp/llm_context_store.go:266-337 | updates the maps as the commit step and keeps the invariant |
| `InMemoryContextStore.InMemoryLlmContextStore.AbortReservation` | nwp/llm_context_store.go:340-356 | updates the maps as the abort step and keeps the invariant |
| `InMemoryContextStore.InMemoryLlmContextStore.ReleaseLocked` | nwp/llm_context_store.go:359-407 | updates the maps as the release step and keeps the invariant |
| `FilterTranslator.KeysInOrder` | nwp/filter_translator.go:140-147 | the sorted keys, whatever the iteration order of the map |
| `FilterTranslator.NwpFilterTranslator.BuildSimple` | nwp/filter_translator.go:279-309 | text, parameter and error of a comparison |
| `FilterTranslator.NwpFilterTranslator.BuildIn` | nwp/filter_translator.go:311-334 | text, list parameter, constants for the empty list, and error of $in and $nin |
| `FilterTranslator.NwpFilterTranslator.BuildBetween` | nwp/filter_translator.go:336-349 | text, the two parameters in order, and error of $between |
| `FilterTranslator.NwpFilterTranslator.BuildFieldCondition` | nwp/filter_translator.go:242-277 | emits the tokens of the field's condition in operator order |
| `FilterTranslator.NwpFilterTranslator.BuildLogical` | nwp/filter_translator.go:182-240 | emits the tokens of $and, $or and $not |
| `FilterTranslator.NwpFilterTranslator.BuildObject` | nwp/filter_translator.go:149-180 | emits the tokens of the condition the object denotes, or its error code |
| `FilterTranslator.NwpFilterTranslator.Translate` | nwp/filter_translator.go:118-133 | text and parameters of the whole filter, numbered from p0 |
| `SqlNumbering.CondNumbered` | nwp/filter_translator.go:279-349 | the k-th parameter of a condition is named after its position |
| `SqlNumbering.ListedBound` | nwp/sql_memory_node_provider.go:197-201 | with distinct names every placeholder finds its own value |
| `SqlRebind.RebindPieces` | nwp/sql_memory_node_provider.go:222-253 | rebinding replaces each named parameter by its own placeholders, lists the arguments in placeholder order and leaves all other text as it is |
| `SqlQuery.RebindNamedParams` | nwp/sql_memory_node_provider.go:197-254 | the scanning loop on any text whatever: text and arguments of the rebinding |
| `SqlQuery.ListText` | nwp/sql_memory_node_provider.go:235-242 | a list value gets one numbered placeholder per element |
| `SqlLexing.LexRebound` | nwp/sql_memory_node_provider.go:197-254 | a driver reads exactly the emitted tokens in the rebound text, in both dialects, the n-th placeholder standing for the n-th argument |
| `SqlMeaning.CondReads` | nwp/filter_translator.go:149-349 | read with NOT over AND over OR, the text of every condition has its value wherever it stands, or is no condition |
| `SqlMeaning.EmptyToks` | nwp/filter_translator.go:172-240 | which conditions emit no text |
| `SqlTranslation.FilterSelects` | nwp/filter_translator.go:118-349 | an empty filter selects all rows, a filter is no SQL condition exactly if it is not well formed, any other selects by its value without its empty parts |
| `SqlGaps.EmptyMeaning` | nwp/filter_translator.go:172-240 | a condition without text denotes the same at every row |
| `SqlDenotation.ReadMeans` | nwp/filter_translator.go:149-349 | the condition read from a filter has the truth value of the JSON: an object and $and are conjunctions, $or a disjunction, $not a negation, each operator name its comparison on the field's column |
| `SqlDenotation.ReadFlaws` | nwp/filter_translator.go:149-357 | a filter is rejected if and only if some name, operator or value in it is wrong, with the code of such a flaw |
| `SqlDenotation.ValuePreserved` | nwp/filter_translator.go:369-387 | no value changes on its way to the driver; exactly the whole 64-bit numbers become integers |
| `SqlGaps.GapAtRow` | nwp/filter_translator.go:210-240 | at a row where the kept parts are right, an emitted $and or $or is right if and only if every dropped part is its unit or a kept part decides it anyway |
| `SqlGaps.HarmlessMeans` | nwp/filter_translator.go:149-240 | if every empty clause is a unit, a filter is emitted as what it denotes |
| `SqlGaps.HarmlessExactly` | nwp/filter_translator.go:149-240 | for filters that ask no question twice: if and only if; a harmful gap selects some row wrongly |
| `SqlCounterexamples.NoAlternativeSelectsAll` | nwp/filter_translator.go:216-234 | the filter `{"$or": []}` denotes no row and selects every row |
| `SqlCounterexamples.NotNothingSelectsAll` | nwp/filter_translator.go:184-198 | so does `{"$not": {}}` |
| `SqlCounterexamples.DroppedAlternative` | nwp/filter_translator.go:216-240 | `{"$or": [{}, {"a": {"$eq": 1}}]}` denotes every row and selects those where a is 1 |
| `SqlCounterexamples.CoveredGap` | nwp/filter_translator.go:216-240 | `{"$or": [{}, {"a": {"$nin": []}}]}` has a harmful gap that a test which always holds covers |
| `SqlQuery.SqlQueryBuilder.Build` | nwp/sql_query_builder.go:52-119 | text and parameters of the query with its limit and offset |
| `SqlQuery.QueryMeans` | nwp/sql_query_builder.go:52-119 | the rebound query is the query with its condition rebound; filter arguments come first, then limit and offset in the dialect's order |
| `SqlQuery.PagingReads` | nwp/sql_query_builder.go:106-117 | the placeholder behind OFFSET stands for the offset, the other for the limit, in both dialects |
| `SqlQuery.LimitExactly` | nwp/sql_query_builder.go:62-68 | the limit asked for, or else the default, capped by a maximum that is set |
| `SqlQuery.ConditionMeans` | nwp/filter_translator.go:118-133 | a filter is accepted if and only if it is absent, no object or flawless, and then read as what it denotes |
| `SqlQuery.FilterQueryMeans` | nwp/sql_query_builder.go:52-119 | for every filter over a schema the query is no SQL condition exactly if the filter is not well formed, and selects the rows the filter denotes if its gaps are harmless |
| `SqlQuery.FilterQueryExactly` | nwp/sql_query_builder.go:52-119 | for every filter that asks no question twice the query selects what the filter denotes, at all rows, if and only if the filter is well formed and its gaps are harmless |
| `CaInvariants.AppendKeeps` | nip/ca_store.go:58-73 | a saved record keeps revoked records a suffix of its NID's history |
| `CaInvariants.RevocationKeeps` | nip/ca_store.go:97-111 | so does a revocation |
| `CaInvariants.RevokeCascades` | nip/ca_service.go:709-751 | revoking a current group leaves the newest record of every session issued under it revoked, renewed ones included |
| `CaRuns.Reachable` | nip/ca_service.go:303-751 | the invariant holds after every call sequence |
| `CaRuns.RevokedForever` | nip/ca_service.go:669-779 | a NID whose newest record is revoked never verifies again |
| `CaRuns.SessionWithinGroup` | nip/ca_service.go:570-658 | a session's capabilities stay within those of its group |
| `CaRuns.VerifiesAfterGroupRevoke` | nip/ca_service.go:709-779 | exactly when a session verifies in the state its group's revocation leaves |
| `CaRuns.GroupRevokeEndsSession` | nip/ca_service.go:669-779 | no later calls make a session verify again after its group was revoked, if and only if the group's current record had its role or the session was revoked before |
| `CaCounterexample.RenewedSessionOutlivesGroup` | nip/ca_service.go:696-700 | a run in which a session verifies after its group was revoked |
| `CaCounterexample.RenewalRevivesSession` | nip/ca_service.go:669-705 | a run in which the revocation stops the session, and renewing the session revives it |
| `CaAnswers.RegisterExactly` | nip/ca_service.go:303-338 | an entity is registered if and only if its NID is new and its capabilities may be granted; the record written |
| `CaAnswers.RegisterGroupExactly` | nip/ca_service.go:509-556 | so for groups, whose identifier begins with "group-" or is drawn |
| `CaAnswers.IssueSessionExactly` | nip/ca_service.go:570-658 | a session is issued if and only if the newest record of the NID is a group, neither revoked nor expired, and the request stays within the validity limits and the group's capabilities; the record written, and the code of every refusal |
| `CaAnswers.RenewExactly` | nip/ca_service.go:669-706 | a certificate is renewed if and only if its newest record is not revoked and the window is open; the record written |
| `CaAnswers.RevokeExactly` | nip/ca_service.go:709-751 | a revocation succeeds if and only if some record of the NID is not revoked |
| `CaAnswers.RevokeTouches` | nip/ca_service.go:709-751 | it marks only records of the NID and, for a current group, of sessions issued under it |
| `CaAnswers.VerifyExactly` | nip/ca_service.go:755-779 | a NID verifies if and only if its newest record, and that of the parent it names, are in force |
| `CaAnswers.SessionOrigin` | nip/ca_service.go:570-658 | in every run each record with a parent was written by a call that found the parent's newest record to be a group in force covering the request |
| `CaAnswers.NoSessionAfterRevoke` | nip/ca_service.go:582-584 | in every run no session is issued under a group after its revocation |
| `CaService.InMemoryNipCaStore.SaveRecord` | nip/ca_store.go:58-73 | appends unless the serial is taken |
| `CaService.InMemoryNipCaStore.GetByNid` | nip/ca_store.go:75-84 | the newest record of a NID |
| `CaService.InMemoryNipCaStore.RevokeNewest` | nip/ca_store.go:97-111 | marks the newest unrevoked record only |
| `CaService.InMemoryNipCaStore.GetByParentNid` | nip/ca_store.go:136-146 | all records issued under a parent, in order |
| `CaService.NipCaService.RegisterEntity` | nip/ca_service.go:303-339 | registers as the register step and keeps the invariant |
| `CaService.NipCaService.RegisterGroupNid` | nip/ca_service.go:509-556 | registers a group and keeps the invariant |
| `CaService.NipCaService.IssueSessionNid` | nip/ca_service.go:570-658 | issues a session and keeps the invariant |
| `CaService.NipCaService.RenewNid` | nip/ca_service.go:669-705 | renews and keeps the invariant |
| `CaService.NipCaService.RevokeNid` | nip/ca_service.go:709-751 | revokes with its cascade and keeps the invariant |
| `CaService.NipCaService.VerifyNid` | nip/ca_service.go:755-779 | the verdict on the newest record and its parent |
| `RegistryModel.RunKeeps` | ndp/registry_profile.go:97-167 | after any arrivals, valid or not, an entry carries the sequence number on record, its own digest and its own deadline |
| `RegistryModel.RunMonotone` | ndp/registry_profile.go:131-134 | the sequence number on record never decreases |
| `RegistryModel.RemovedStays` | ndp/registry_profile.go:131-139 | after a removal at sequence s nothing with a sequence up to s makes the node live again |
| `RegistryModel.Converges` | ndp/registry_profile.go:97-167 | any order and any redelivery of the same announcements lead to the same registry, for all nodes at once |
| `RegistryModel.NewestShows` | ndp/registry_profile.go:97-167 | which shows the newest announcement of each node, or its removal |
| `RegistryAdmission.TurnedDown` | ndp/registry_profile.go:97-130 | an arrival that is unsigned, incomplete, too old or not encodable changes nothing and is rejected with the code of the first thing missing |
| `RegistryAdmission.OthersDoNotShow` | ndp/registry_profile.go:97-130 | every run ends as the run of its genuine arrivals alone |
| `RegistryAdmission.ContentsSourced` | ndp/registry_profile.go:97-167 | in every run each sequence number and each entry comes from a genuine arrival, whose lifetime had not passed |
| `RegistryAdmission.SignedBodyFixed` | ndp/registry_profile.go:139-146 | at one sequence number no frame with another signed body takes a node's place |
| `RegistryAdmission.DecisionExactly` | ndp/registry_profile.go:131-166 | when a genuine arrival is accepted, removes, refreshes, is a duplicate or is rejected, and what is stored then |
| `RegistryProfile.NdpRegistryProfile.ApplyAnnounce` | ndp/registry_profile.go:97-167 | updates both maps and decides as the admission step |
| `RegistryProfile.NdpRegistryProfile.LiveNids` | ndp/registry_profile.go:169-178 | exactly the live nodes, ascending |
| `RegistryProfile.NdpRegistryProfile.ResolveCluster` | ndp/registry_profile.go:197-234 | the owner is the one live anchor ahead of all others in epoch; otherwise there is none, or a split |
| `ClusterDelegation.EpochsAdvance` | nop/cluster_delegation.go:83-141 | under every interleaving a cluster's cached epoch never decreases and the owner of an epoch never changes |
| `ClusterDelegation.AnswersAdvance` | nop/cluster_delegation.go:83-113 | later answers about a cluster are never older, whoever asks |
| `ClusterDelegation.CacheIsNewest` | nop/cluster_delegation.go:83-153 | in every run the cache holds the first owner told for the highest epoch told since the entry was last dropped |
| `ClusterDelegation.NewestUnique` | nop/cluster_delegation.go:83-141 | which is determined by what was told |
| `ClusterDelegation.DroppedEntryGoesBack` | nop/cluster_delegation.go:149-153 | after an invalidation an older owner can return |
| `ClusterDelegation.ClusterDelegationResolver.BeginResolve` | nop/cluster_delegation.go:83-92 | the first critical section |
| `ClusterDelegation.ClusterDelegationResolver.FinishResolve` | nop/cluster_delegation.go:97-113 | the second critical section |
| `ClusterDelegation.ClusterDelegationResolver.OnAnchorFailover` | nop/cluster_delegation.go:124-141 | accepts exactly strictly newer epochs and first observations |
| `ClusterDelegation.ClusterDelegationResolver.BeginDelegate` | nop/cluster_delegation.go:61-78 | direct targets touch no cache, targets that are no NID are refused, cached owners are returned |
| `ClusterDelegation.ClusterDelegationResolver.FinishDelegate` | nop/cluster_delegation.go:73-77 | after a lookup the delegation goes to the owner the cache then has, or to nobody |
| `ConditionParsing.PrintedEvaluates` | nop/condition_evaluator.go:237-329 | the tokens of every tree evaluate to its value up to the first boolean literal on the left of a comparison, which is what the tree denotes if there is none; the end is reached exactly if there is none and no operand is in error |
| `ConditionParsing.ChainTree` | nop/condition_evaluator.go:237-296 | whatever the parser reads is the printed form of a tree with its value |
| `ConditionTokens.LexTerminated` | nop/condition_evaluator.go:79-208 | the tokenizer ends every list with its only end marker, or with an error |
| `ConditionTokens.LegibleLexes` | nop/condition_evaluator.go:79-208 | tokens written with any blanks between them, or none where they stand apart, are tokenized to themselves |
| `ConditionEvaluator.TokenizeCondition` | nop/condition_evaluator.go:79-208 | the tokenizer loop |
| `ConditionEvaluator.ConditionParser.ParseOrExpr` | nop/condition_evaluator.go:237-245 | reads as specified and never beyond the end marker |
| `ConditionEvaluator.ConditionParser.ParseAndExpr` | nop/condition_evaluator.go:248-256 | reads as specified and never beyond the end marker |
| `ConditionEvaluator.ConditionParser.ParseNotExpr` | nop/condition_evaluator.go:259-265 | reads as specified and never beyond the end marker |
| `ConditionEvaluator.ConditionParser.ParseComparison` | nop/condition_evaluator.go:268-296 | reads as specified and never beyond the end marker |
| `ConditionEvaluator.EvaluateCondition` | nop/condition_evaluator.go:29-47 | the value of a condition text, or an error |
| `ConditionEvaluator.WrittenEvaluates` | nop/condition_evaluator.go:29-47 | writing any tree down, in any such spacing, and evaluating the text gives its value up to that cut |
| `ConditionEvaluator.TrimExactly` | nop/condition_evaluator.go:30-44 | a text is trimmed to what stands between its blanks |
| `ConditionEvaluator.BlankHolds` | nop/condition_evaluator.go:30-32 | a condition of blanks only holds |
| `ConditionValues.OperandsMean` | nop/condition_evaluator.go:307-329 | literals stand for themselves, unreadable numbers and paths are errors |
| `ConditionValues.NumbersCompare` | nop/condition_evaluator.go:373-398 | each operator on two numbers |
| `ConditionValues.StringsCompare` | nop/condition_evaluator.go:373-414 | each operator on two strings, by their first difference |
| `ConditionValues.OthersCompare` | nop/condition_evaluator.go:373-425 | values of other or different kinds are never ordered, and equal only if both are null or the same boolean |
| `ConditionValues.FalseValues` | nop/condition_evaluator.go:358-371 | the values that count as false |
| `ConditionEvaluator.LiteralCutsComparison` | nop/condition_evaluator.go:268-282 | the text `true == false` evaluates to true |
| `ConditionEvaluator.EvaluatedIsTree` | nop/condition_evaluator.go:29-47 | a text evaluated to its last token is the writing of a tree, and has its value |
| `MerkleInclusion.GenuineAccepted` | nip/reputation_client.go:257-280 | the genuine path of every leaf leads to the root |
| `MerkleInclusion.AcceptedLength` | nip/reputation_client.go:257-280 | a path of another length leads to the root only if hashed inputs collide |
| `MerkleInclusion.AcceptedGenuine` | nip/reputation_client.go:257-280 | unless inputs hashed for the tree and for the proof collide, an accepted proof carries the leaf at its index and that leaf's siblings |
| `MerkleInclusion.LeafNumber` | nip/reputation_client.go:264-270 | the bits of the index lead to the leaf with that number |
| `MerkleInclusion.FillNode` | nip/reputation_client.go:262-270 | the 65-byte buffer after the two copies, siblings of any length included |
| `MerkleInclusion.VerifyInclusion` | nip/reputation_client.go:235-280 | accepts exactly if the leaf hash matches, every step decodes and the path leads to the root |
| `MerkleInclusion.AcceptsExactly` | nip/reputation_client.go:235-280 | accepts the log's own proof of every entry, and for an index no other entry |
| `FeatureHeader.HeaderBijection` | alpha20/feature_wire_parser.go:212-240 | accepted texts and strictly ascending, in-bounds selection lists correspond one to one |
| `FeatureHeader.PrintedParses` | alpha20/feature_wire_parser.go:212-240 | every such list is read back from its text, which never exceeds the size limit |
| `FeatureHeader.ParsedPrints` | alpha20/feature_wire_parser.go:212-240 | every accepted text is the text of its list |
| `FeatureHeader.NameHas` | alpha20/feature_wire_parser.go:58-62 | names hold no separator and nothing outside ASCII |
| `FeatureHeader.DecVal` | alpha20/feature_wire_parser.go:63-68 | a revision without leading zero is the notation of its value |
| `FeatureHeader.ParseRequiredFeatureHeader` | alpha20/feature_wire_parser.go:212-240 | the parsing loop, for no, one or several instances |
| `BinaryVector.RoundTripExactly` | core/binary_vector.go:38-123 | decoding an encoding returns metadata and vectors bit for bit exactly if the lengths fit 32 bits and all values are finite |
| `BinaryVector.AcceptedEncodes` | core/binary_vector.go:65-123 | every accepted payload is the encoding of what it is read as |
| `BinaryVector.EncodeBinaryVector` | core/binary_vector.go:28-62 | fills the payload by offsets, all in bounds |
| `BinaryVector.DecodeBinaryVector` | core/binary_vector.go:65-123 | scans the payload by offsets, all in bounds |

## Left out

- HTTP, TLS, sockets, telemetry, daemons and database drivers: input and output only.
- Ed25519, SHA-256, HMAC, X.509, msgpack and JSON encoding: library code, replaced by parameters.
- Error-code tables, frame mappers, policy branches and conformance catalogues: facts of one branch.
- `NopOrchestrator.Execute`, preflight, retries, callbacks and result aggregation: they wrap the loop that `RunDag.Run` models.
- Nodes that finish while a stopped run drains: the source does not record them either.
- `Status`, `Snapshot` and the count that a sweep returns: reads of the state that the steps define.
- Operations of the context store with an unknown name: the source rejects them like an unsupported one.
- `RegisterX509`, enrolment policies and interleaved calls of the certificate authority: the service holds no lock across its reads and saves; each call is one step here.
- `CaRuns.GroupRevokeEndsSession`: options with a negative validity period are excluded; certificates issued under them are expired from the start.
- Certificate serials are unbounded numbers here.
- `DiscoverBridges`, `HighestSequences` and `HasStaleEntry`: plain queries.
- `SqlQuery.SqlQueryBuilder.Build`: select list, order terms and cursor arrive ready, as text and as a number; `buildSelectList`, `buildOrderBy` and `BuildCount` only quote and join.
- `FilterTranslator.KeysInOrder`: `strings.EqualFold` on field names is modelled for ASCII only.
- `SqlQuery.FilterQueryMeans`: column names with `@` or with the closing quote are excluded, because the source neither escapes nor rejects them.
- `ConditionEvaluator.EvaluateCondition`: texts are ASCII or Latin-1 characters, and numbers are reals.
- `MerkleInclusion.AcceptedGenuine`: trees are perfect; the source knows no others.
- `SqlGaps.HarmlessExactly`: filters in which two members ask the same question, or a list is empty, have only the sufficient direction; there the value depends on how the tests cover each other.
- `BinaryVector.DecodeBinaryVector`: metadata stays bytes; putting the vectors back into it is left out.
- `EvaluateOrchestration`, leases, callbacks and lifecycle checks of the portable profile: branches over decoded JSON.
