# Verified models of saltbox_core

These Dafny files model the logic of saltbox_core that decides which minions a collection holds, in which order
policies run on a minion, which jobs a task starts, when jobs end, and what happens to the extra data of minions.
`dafny verify dfyconfig.toml` checks all of it.

- **Collections** (`Graphs`, `CollectionFilter`, `CollectionStore`, `StoreWrites`, `CollectionRepository`). A collection
  has a slug, a parent and a query; a `collection` filter in a query names other collections by slug. The cycle search
  is a class with its shared `checked` set and `path`. The repository is a class whose writes are proved against an
  acceptance rule; the rule keeps the store sound over every run, and refuses no write that would leave it sound but a
  new collection that names itself or an update of nothing.
- **Query expansion** (`QueryExpansion`, `QueryMeaning`, `StoreExpansion`). A query with `collection` filters is
  rewritten into one without. The loops are proved equal to a recursive specification, and the specification is proved
  to mean the same for every minion wherever no dictionary key is overwritten. The membership of a minion in the stored
  collections is a parameter tied down by `IsMembership`; on a sound store there is one and it is unique.
- **Policies** (`PolicyOrdering`, `PolicyQueue`, `PolicyLateness`, `PolicyDraining`, `PolicySchedule`). The ordering
  algorithm, the per-minion queue as a state machine over evaluations, ticks, pings, new-job events and every outcome
  of a job, late ones included, and the proof that the order makes every queue drain.
- **Tasks and jobs** (`TaskStatuses`, `TaskProtocol`, `TaskSafety`, `TaskRetries`, `TaskRetryRuns`, `TaskQueue`,
  `TaskScheduling`, `TaskScheduler`, `TaskTicks`, `TaskQueueRuns`, `TaskEvents`, `TaskEffects`, `Deadlines`,
  `JobsWatcher`). `TaskProtocol` has one step per atomic action of an actor; safety and the retry bound are proved over
  all runs of it. The scheduler, the event handlers and the jobs watcher are classes whose methods are proved to do what
  they promise and to be runs of that protocol, so what holds over all runs holds of them. What a tick and an event
  leave behind is also stated record by record (`TaskTicks`, `TaskEffects`). The scheduler reads its verdicts from the
  queues of the stored rows (`TaskQueue`), and every history of the rows is a run of each queue (`TaskQueueRuns`).
- **Extra data** (`ExtraData`, `MinionMerge`, `MinionStore`, `ExtraDataCategory`, `ExtraDataWrites`,
  `ExtraDataGroups`, `ExtraDataService`, `ExtraDataMigration`, `Sums`). Items inside minion documents and shared
  aggregated records; merging of minions, adding, replacing and importing items, and the migration to single-type
  fields.
- **Compound targets** (`TgtExpressions`, `TgtConverter`) and **job ids** (`Jid`).

## Assumptions

- Every conditional update of a stored collection is one atomic step. One tick of a task, with one fixed time, is not
  interleaved with other actors; one process handles the tasks one after another. A new-job event is one step, and a
  job id gets at most one, before any other event for it.
- The SDK is not part of this model: the tree repository is taken to find a move's target and new parent, and to hand
  whole subtrees to the delete validator. Ids of new collections, jobs and items are new.
- The membership of a minion in a query's ordinary conditions, the truth of a single matcher, date and number formats,
  the current time and the outcome of a job launch are parameters.

## Findings

- A `collection` filter in a document beside `$or`, `$nor` or `_id` can be lost, or overwrite them
  (`QueryMeaning.CollidingKeysLoseMeaning`); the exact meaning of every expansion is
  `QueryMeaning.ExpansionKeepsWhatIsNotOverwritten`.
- The cycle check does not see references by an empty slug; a true cycle can arise exactly when a slug is empty
  (`CollectionStore.TrueCycleNeedsEmptySlug`).
- Nothing guards a row that has its result against a late return, timeout or launch error
  (`PolicyQueue.ResolvedChangesOnlyLate`). A late outcome that puts a policy back keeps the order exactly when nothing
  behind it has been started, held back or given up; one that turns a result into another, exactly when each of these
  misses another requirement or accepts both results alike (`PolicyLateness.LateOutcomeBreaksOrder`). So a policy can be
  running behind one that is pending again (`LateReturnBreaksOrder`), and all can be resolved with a missed requirement
  behind a success (`LateErrorBreaksVerdict`).
- A policy that was held back for another task is started when it is freed, without a look at its queue: after a late
  outcome, behind a policy that is pending again (`PolicyLateness.FreedPolicyStartsOutOfTurn`). A job starts out of turn
  exactly in this way (`PolicyLateness.StartsInTurnUnlessHeldBack`). An inactive minion is pinged in the same way
  (`PolicyLateness.PingsInTurnUnlessHeldBack`), and a launch error of the ping fails a policy that has never run
  (`PolicyLateness.FreedPolicyFailsOutOfTurn`). Finality, order and verdicts hold over the runs
  without late outcomes; that stuck policies never start, the bound on starts, and draining once no further outcome is
  late hold over every run.
- In the migration a type that is listed twice counts as several: two `int` make a float field, two `bool` a text field
  (`ExtraDataMigration.SeveralTypesAreJoined`).
- A policy that comes in ahead of one that has been started leaves that one out of order
  (`PolicyLateness.InsertionBreaksOrder`).
- `count_runs` counts return records, so a row that leaves work before the new-job event of its job gets one run more
  than `max_retries` allows. `TaskRetries.RunsAreBounded` counts these runs, and its bound is attained for every
  number of retries, of lost runs and of restarts (`TaskRetryRuns.BoundIsAttained`).
- A ttl of zero means the longest ttl for a job, but no waiting at all for a return
  (`Deadlines.ZeroTtlOfReturnEndsWaiting`).
- The test `total_count_minions_in_new_job == 0` in `handle_running_status` follows from the test of the rows
  (`TaskScheduler.TakenAreUnfinished`).
- Merging minions checks only manual items for conflicts, so a single-item category can end with two system items
  (`MinionMerge.SystemItemsMayDouble`).
- The migration compares with Python's equality, in which 4 is 4.0: a record whose only changes are whole floats in int
  fields is left as it is (`ExtraDataMigration.UncastExactly`), and the cleaning of items refuses such a value later
  (`ExtraDataMigration.WholeFloatStays`).
- The migration of aggregated records loses entries when a record is read before others are merged into it and is
  written afterwards (`ExtraDataMigration.OutdatedReadLosesEntries`).
- Entries are grouped by the JSON text of their shared data; what is written comes back exactly when the texts tell
  apart what the database tells apart (`ExtraDataWrites.AllComesBack`), which a date and its text do not
  (`ExtraDataWrites.DateMixesWithText`).
- The final strip of the target converter can remove parentheses of different groups
  (`TgtConverter.ConvertedMeans`), and entries of one document inside `$or` are joined by `or`
  (`TgtConverter.SeveralEntriesUnderOr`).

## Model

| member | source | states |
|---|---|---|
| Graphs.FindCycle | saltbox_core/minion_collections/utils/collection_filter.py:41-60 | on every finite graph the search ends, reports nothing exactly when the start cannot reach itself, and otherwise a walk along edges from the start to itself that visits nothing else twice |
| Graphs.CycleSearch.constructor | saltbox_core/minion_collections/utils/collection_filter.py:41-43 | the path and the checked set begin as the start alone |
| Graphs.CycleSearch.Walk | saltbox_core/minion_collections/utils/collection_filter.py:45-58 | either a simple cycle through the start, or the path restored and everything reachable from the node through unchecked nodes checked, with no edge back to the start |
| Graphs.NoCycleThrough | saltbox_core/minion_collections/utils/collection_filter.py:41-60 | a set closed under successors that misses all predecessors of the start shows that the start is on no cycle: why one shared checked set is enough |
| Graphs.SimultaneousChangeKeepsAcyclic | saltbox_core/minion_collections/repositories/collection.py:115-126 | when several nodes get the same new successors and none reaches itself in the graph where it alone has changed, the graph where all have changed has no cycle |
| Graphs.PartOfChangeKeepsAcyclic | saltbox_core/minion_collections/repositories/collection.py:115-126 | the converse: when no cycle is there before and after all have changed, none of them reaches itself in the graph where it alone has changed, so checking the targets one by one refuses nothing that is sound |
| CollectionFilter.GetReferencedSlugs | saltbox_core/minion_collections/utils/collection_filter.py:25-38 | fails exactly when some `collection` key at any depth is malformed, and otherwise returns exactly the slugs named at any depth |
| CollectionFilter.FilterIsListing | saltbox_core/minion_collections/utils/collection_filter.py:9-22 | a filter is well formed exactly as a document of one `$in` or one `$nin` with a list of texts; `$in` asks for the collections with these slugs, `$nin` for the others |
| CollectionStore.CreateKeepsSound | saltbox_core/minion_collections/repositories/collection.py:101-113 | a create that passes the existence checks keeps slugs unique, references and parents present and the graph acyclic, without a cycle check |
| CollectionStore.UpdateKeepsSound | saltbox_core/minion_collections/repositories/collection.py:105-126 | an update of any set of targets, each checked as if it alone changed, keeps the store sound |
| CollectionStore.DeleteKeepsSound | saltbox_core/minion_collections/repositories/collection.py:142-159 | deleting whole subtrees that no other collection names keeps the store sound |
| CollectionStore.EveryRunIsSound | saltbox_core/minion_collections/repositories/collection.py:94-209 | over every sequence of creates, updates, moves and deletes, accepted or refused, the store stays sound |
| CollectionStore.EmptyStoreIsSound | saltbox_core/minion_collections/repositories/collection.py:94-209 | the empty store is sound, so soundness holds from the beginning |
| StoreWrites.WriteStoresWhatItAsks | saltbox_core/minion_collections/repositories/collection.py:94-159 | an accepted write leaves one store only: a create adds the collection, an update sets the given parent and the given query of the targets and keeps their slugs, a move sets one parent, a delete removes the given ones, and every other collection stays as it was; a refused write leaves all as it was |
| StoreWrites.AcceptedExactly | saltbox_core/minion_collections/repositories/collection.py:94-209 | a write of something that is there to be written is accepted if and only if the store that it asks for is sound, and no new collection names itself: the checks made before the write refuse nothing else, although they look at each target alone |
| StoreWrites.SelfNamingIsRefused | saltbox_core/minion_collections/repositories/collection.py:169-182 | a new collection that names its own slug is refused, and only with an empty slug would the cycle check have let it pass |
| CollectionStore.CheckedViewIsWhole | saltbox_core/minion_collections/repositories/collection.py:197-206 | without empty slugs the graph of the cycle check is the whole dependency graph, so a sound store has no true cycle |
| CollectionStore.EmptySlugHidesCycle | saltbox_core/minion_collections/repositories/collection.py:197-206 | a collection with an empty slug can be updated to refer to itself: the check leaves empty slugs out |
| CollectionStore.TrueCycleNeedsEmptySlug | saltbox_core/minion_collections/repositories/collection.py:184-209 | from a sound store without true cycles one accepted write can make a true cycle if and only if some slug is empty |
| CollectionRepository.Repository.constructor | saltbox_core/minion_collections/repositories/collection.py:94-209 | a new repository is empty and sound |
| CollectionRepository.Repository.ValidateReferencedSlugsExist | saltbox_core/minion_collections/repositories/collection.py:169-182 | passes exactly when the filters are well formed and every named slug exists, and otherwise reports exactly the unknown ones |
| CollectionRepository.Repository.ValidateNoReferenceCycle | saltbox_core/minion_collections/repositories/collection.py:184-209 | passes exactly when the target, with the given parent and query, does not reach itself in the checked graph |
| CollectionRepository.Repository.Create | saltbox_core/minion_collections/repositories/collection.py:94-128 | succeeds exactly when the create is acceptable, then stores exactly it, and otherwise changes nothing |
| CollectionRepository.Repository.ValidateTargets | saltbox_core/minion_collections/repositories/collection.py:115-126 | passes exactly when no target would reach itself if it alone had changed |
| CollectionRepository.Repository.Update | saltbox_core/minion_collections/repositories/collection.py:94-128 | succeeds exactly when the update is acceptable, then changes exactly the targets, and otherwise changes nothing |
| CollectionRepository.Repository.Move | saltbox_core/minion_collections/repositories/collection.py:130-140 | succeeds exactly when the move closes no cycle, then changes exactly the parent of the target |
| CollectionRepository.Repository.Delete | saltbox_core/minion_collections/repositories/collection.py:142-159 | succeeds exactly when no remaining collection names a deleted one, and otherwise reports exactly those that do |
| CollectionRepository.SameReachability | saltbox_core/minion_collections/repositories/collection.py:199-206 | the edges collected in the loop reach exactly what the dependency graph reaches |
| QueryExpansion.ExpandQueryCollections | saltbox_core/minion_collections/repositories/minion.py:200-213 | the loops over fields and items, with assignment by dictionary key, compute the recursive specification, errors included, and end on every store, cyclic ones included |
| QueryExpansion.ExpandCollectionCondition | saltbox_core/minion_collections/repositories/minion.py:180-198 | the loop over the selected collections computes the recursive specification of one filter, errors included; what that is from the raw document is said by FilterFindsMembers, MalformedFilterIsRefused and RepeatedSlugIsRefused |
| QueryExpansion.ParentsDoNotChangeResult | saltbox_core/minion_collections/repositories/minion.py:180-213 | the slugs being expanded decide only whether expansion fails, never what it returns |
| QueryMeaning.ExpansionKeepsWhatIsNotOverwritten | saltbox_core/minion_collections/repositories/minion.py:180-213 | for every query a minion matches the expanded query exactly when it matches the original with the overwritten entries left out |
| QueryMeaning.ExpansionPreservesMeaning | saltbox_core/minion_collections/repositories/minion.py:180-213 | when no entry is overwritten, a minion matches the expanded query exactly when it matches the original, in which a document with `$in` asks for a member of some stored collection with one of the listed slugs and one with `$nin` for a member of none, read from the document without the parser |
| QueryMeaning.FilterFindsMembers | saltbox_core/minion_collections/repositories/minion.py:180-198 | from the raw document: the expansion of a single `$in` filter matches exactly the members of some stored collection whose slug is among the texts, that of a `$nin` filter exactly the minions that are a member of none |
| QueryMeaning.MalformedFilterIsRefused | saltbox_core/minion_collections/repositories/minion.py:180-181 | a document whose filter is no `$in` and no `$nin` with texts is refused as malformed |
| QueryMeaning.RepeatedSlugIsRefused | saltbox_core/minion_collections/repositories/minion.py:183-187 | a filter that lists a slug under expansion is refused for the first such slug, with the way from there back to it |
| QueryMeaning.ExpansionLeavesNoFilter | saltbox_core/minion_collections/repositories/minion.py:200-213 | no `collection` key is left at any depth |
| QueryMeaning.OrBesideFilterIsLost | saltbox_core/minion_collections/repositories/minion.py:203-205 | in a document with `$or` before an `$in` filter the `$or` has no effect on the expanded query |
| QueryMeaning.CollidingKeysLoseMeaning | saltbox_core/minion_collections/repositories/minion.py:203-205 | a concrete query whose expansion a minion matches although it does not match the query |
| QueryMeaning.HiddenFilterIsRewritten | saltbox_core/minion_collections/repositories/minion.py:200-208 | an ordinary value with distinct keys comes out as it is exactly when no `collection` key is in it at any depth: a hidden one is rewritten too |
| QueryMeaning.MembershipEntersRightly | saltbox_core/minion_collections/repositories/minion.py:190-193 | for every collection that can still be entered, a minion matches the expansion of its full query exactly when it is a member |
| StoreExpansion.SoundHasRoots | saltbox_core/minion_collections/repositories/collection.py:59-69 | on an acyclic store every chain of parents ends, so every full query is defined |
| StoreExpansion.FullQueryMeansAllAncestors | saltbox_core/minion_collections/repositories/collection.py:62-69 | to satisfy a full query is to satisfy the own query and the queries of all ancestors |
| StoreExpansion.FullQueryRefersThroughAncestors | saltbox_core/minion_collections/repositories/collection.py:64-67 | whatever a full query names is reached in the dependency graph |
| StoreExpansion.ExpansionFailsOnlyOnCycle | saltbox_core/minion_collections/repositories/minion.py:183-185 | on a sound store the expansion of a well-formed query fails only if there is a true cycle |
| StoreExpansion.StoredQueriesExpand | saltbox_core/minion_collections/repositories/minion.py:187-193 | on a sound store without true cycles every stored full query expands |
| StoreExpansion.MembershipIsDefined | saltbox_core/minion_collections/repositories/minion.py:187-198 | there is a membership of every minion in the stored collections, and only one |
| PolicyOrdering.AddRequirements | saltbox_core/tasks/policy_ordering.py:22-28 | every requirement that names an item is counted once in the dependents and in the degree |
| PolicyOrdering.CollectDependents | saltbox_core/tasks/policy_ordering.py:19-28 | the dependents hold each id once per requirement, and every degree is the number of requirements among the items |
| PolicyOrdering.ReleaseDependents | saltbox_core/tasks/policy_ordering.py:40-44 | every dependent loses as many open requirements as it is listed, and exactly those at zero become ready, once each |
| PolicyOrdering.PlaceNext | saltbox_core/tasks/policy_ordering.py:36-47 | placing the first ready id keeps the state right: degrees count open requirements, ready is exactly what can be placed, sorted by weight |
| PolicyOrdering.PlaceAllReady | saltbox_core/tasks/policy_ordering.py:30-47 | the emitted ids have all requirements emitted before, are lightest among the ready ones, and nothing is ready at the end |
| PolicyOrdering.LeftoversAreStuck | saltbox_core/tasks/policy_ordering.py:49-52 | what is not emitted has a chain of requirements into a cycle |
| PolicyOrdering.PlacedAreNotStuck | saltbox_core/tasks/policy_ordering.py:36-47 | what is emitted has no chain of requirements into a cycle: with the row above, the leftover branch places exactly the stuck ids |
| PolicyOrdering.OrderIdsByRequirements | saltbox_core/tasks/policy_ordering.py:17-54 | the result is a permutation; every id that is not stuck stands behind its requirements and is lightest among the ready ones; the stuck ids come last, stably sorted by weight; without requirements it is the stable sort by weight |
| Sorting.StableSortSorts | saltbox_core/tasks/policy_ordering.py:30-33 | sorting by weight gives a sorted permutation that keeps the order of equal weights |
| PolicyQueue.RunningTasksAreConsidered | saltbox_core/tasks/policy_ordering.py:79-86 | while every task of the queue runs or waits for minions the predecessor filter leaves the whole queue |
| PolicyQueue.ConsideredExactly | saltbox_core/tasks/policy_ordering.py:79-86 | the policy itself is considered, and another one exactly when its task waits for minions, runs, or is stopping with the policy in work; nothing is considered twice |
| PolicyQueue.ResolvesExactly | saltbox_core/tasks/policy_ordering.py:95-120 | for distinct ids: blocked exactly when an earlier policy has no result; pending exactly when all have one and each requirement names a policy that is success for only-success, failed for only-failed, and either for any; unreachable exactly when all have one and some requirement fails this |
| PolicyQueue.EvaluationIsConsistent | saltbox_core/tasks/policy_ordering.py:95-120 | an evaluated policy is pending exactly when all earlier ones are resolved and all requirements are satisfied, unreachable exactly when they are resolved and one is not, and a stuck one is never pending |
| PolicyQueue.FreshIsConsistent | saltbox_core/tasks/services/tasks_minion.py:91-131 | a fresh, well-ordered queue satisfies the invariant: what is decided is in order, and stuck policies are untouched |
| PolicyQueue.StepKeepsConsistent | saltbox_core/tasks/services/tasks_lifespan.py:273-320 | every evaluation, tick, ping, new-job event, return, timeout, launch error, release and revert that is no late outcome keeps the invariant of the queue |
| PolicyQueue.RunKeepsConsistent | saltbox_core/tasks/services/tasks_lifespan.py:273-320 | so does every sequence of them without a late outcome |
| PolicyQueue.ResolvedChangesOnlyLate | saltbox_core/tasks/tiq_tasks.py:42-76 | in every queue an event changes a resolved policy if and only if it is a late outcome: a success on a failed one, a failed return or a timeout on a successful one or on a failed one below its retries, a launch error on a successful one, and any outcome of a job that an unreachable one once had; an evaluation does so only in a queue that is out of order |
| PolicyLateness.LateOutcomeBreaksOrder | saltbox_core/tasks/policy_ordering.py:103-120 | a failed return or timeout below the retries puts a policy back and keeps the invariant if and only if nothing behind it has been decided; any other late outcome, if and only if every decided policy behind it misses a requirement on another policy, or what it requires of this one accepts the old and the new result alike |
| PolicyLateness.LateOutcomeBreaksVerdicts | saltbox_core/tasks/policy_ordering.py:109-120 | when all are resolved with right verdicts, a late outcome between results leaves the verdicts right if and only if every policy misses a requirement on another one or accepts the old and the new result alike |
| PolicyLateness.StartsInTurnUnlessHeldBack | saltbox_core/tasks/services/tasks_lifespan.py:258-285 | in every queue, whatever has happened to it, a job starts exactly in a tick with a free minion that finds the policy in its turn or held back before; it starts out of turn exactly when a policy is freed that is not in its turn any more |
| PolicyLateness.RunsStartInTurn | saltbox_core/tasks/services/tasks_lifespan.py:258-285 | over every run a start finds the policy in its turn or held back before, and over a run without late outcomes always in its turn |
| PolicyLateness.FreedPolicyStartsOutOfTurn | saltbox_core/tasks/services/tasks_lifespan.py:258-285 | for every limit over two, a run in which a policy is held back, the one it requires put back by a late return, and then a job of it started |
| PolicyLateness.PingsInTurnUnlessHeldBack | saltbox_core/tasks/services/tasks_lifespan.py:130-177 | in every queue a tick with an inactive minion pings it exactly when it finds the policy in its turn, or frees it; the ping is out of turn exactly when a policy is freed that is not in its turn any more |
| PolicyLateness.FreedPolicyFailsOutOfTurn | saltbox_core/tasks/services/tasks_lifespan.py:130-177 | for every limit over two, a run in which a policy is held back, the one it requires put back, its minion pinged, and a launch error fails it although it has never run |
| PolicyLateness.LateErrorBreaksVerdict | saltbox_core/tasks/tiq_tasks.py:58-76 | for every limit over two, a run at whose end all is resolved and a successful policy stands behind a failed one whose success it requires |
| PolicyLateness.InsertionBreaksOrder | saltbox_core/tasks/services/tasks_lifespan.py:397-400 | a new policy that comes in at its place keeps the invariant if and only if nothing behind it has been decided and it closes no cycle of requirements through a policy that has run |
| PolicyLateness.LateReturnBreaksOrder | saltbox_core/tasks/tiq_tasks.py:42-54 | for every limit over two, a run at whose end a policy is in work while the one it requires, and stands behind, is pending again |
| PolicyQueue.ResolvedIsFinal | saltbox_core/tasks/policy_ordering.py:76-76 | over every run without a late outcome a policy that is success, failed or unreachable never changes again |
| PolicyQueue.PoliciesRunInOrder | saltbox_core/tasks/policy_ordering.py:103-105 | over every run without a late outcome, from any queue in order, a policy that was started, pinged, held back or given an outcome stands behind resolved ones only, has its requirements satisfied, and is not stuck; StartsInTurnUnlessHeldBack says what is left of it over the other runs |
| PolicyQueue.StuckNeverStarts | saltbox_core/tasks/policy_ordering.py:49-52 | over every run at all, late outcomes included, a policy whose requirements lead into a cycle is never started, pinged, held back or given an outcome |
| PolicyQueue.VerdictIsRight | saltbox_core/tasks/policy_ordering.py:109-120 | once all are resolved, without a late outcome, a policy is unreachable exactly when some requirement is met by no policy of the queue: success for only-success, failed for only-failed, either for any; LateOutcomeBreaksVerdicts is the exact condition for a late one |
| PolicyDraining.StartsAreBounded | saltbox_core/tasks/tiq_tasks.py:46-52 | over every run, late outcomes included, a policy starts at most max(1, max_retries) jobs, and one more each time it was put back with a job uncounted |
| PolicyDraining.RoundMakesProgress | saltbox_core/tasks/services/tasks_lifespan.py:273-320 | in whatever state a queue is, a round in which every policy gets a free tick or sees its run end, and no outcome is late, uses up some of what the queue can still do |
| PolicyDraining.QueueDrains | saltbox_core/tasks/services/tasks_lifespan.py:273-320 | after every run at all, late outcomes included, every fair continuation without a further one ends with every policy success, failed or unreachable, the unreachable ones with a requirement that no policy of the queue meets, after at most two rounds for every start that the retries leave and every run that is lost yet |
| PolicyDraining.QueueCanDrain | saltbox_core/tasks/services/tasks_lifespan.py:273-320 | after every run at all there is a fair schedule without a further late outcome and without a lost run, and it drains the queue |
| PolicyDraining.FreshQueueDrains | saltbox_core/tasks/services/tasks_lifespan.py:273-320 | from the beginning and without late outcomes these are twice as many rounds as there are jobs allowed and runs lost, and exactly the policies with a requirement that no policy meets end unreachable |
| PolicySchedule.OrderedQueueIsWellOrdered | saltbox_core/tasks/services/tasks_minion.py:121-131 | a group in the order of order_ids_by_requirements satisfies what the queue needs |
| PolicySchedule.ConcatIsWellOrdered | saltbox_core/tasks/services/tasks_minion.py:116-118 | well-ordered groups that require nothing of each other make a well-ordered queue |
| PolicySchedule.QueueForMinion | saltbox_core/tasks/services/tasks_minion.py:91-131 | the queue put together from the ordered groups is well ordered and fresh, so every theorem on queues applies to it |
| TaskSafety.OnlyStartEntersWork | saltbox_core/tasks/services/tasks_lifespan.py:344-352 | only the start of a job puts a row in work, and then the row was pending and no other task holds the minion |
| TaskSafety.StepKeepsExclusion | saltbox_core/tasks/services/tasks_lifespan.py:188-271 | no step makes a minion be in work for two tasks |
| TaskSafety.StepKeepsReturnsSound | saltbox_core/jobs/services/job_services.py:282-308 | every step keeps: returns belong to announced jobs, a finished job has no waiting return, a retcode agrees with the status |
| TaskSafety.FilledReturnIsFinal | saltbox_core/salt/handlers/job_return_handler.py:177-198 | a return with a retcode keeps its status and retcode under every step |
| TaskSafety.EveryRunIsSafe | saltbox_core/tasks/services/tasks_lifespan.py:188-271 | over every run, restarts, late and repeated events included: no minion in work for two tasks at once, no finished job with a waiting return |
| TaskRetries.RunsAreBounded | saltbox_core/tasks/tiq_tasks.py:42-54 | over every run from the beginning the jobs for one minion and task number at most max(1, max_retries), plus one per manual restart, plus one per lost run: the row left work with its job uncounted |
| TaskRetries.RetriesAreKept | saltbox_core/tasks/tiq_tasks.py:42-54 | over every run without a restart of the row, if each job of the row has left a return record whenever the row leaves work, at most max(1, max_retries) jobs target one minion for one task |
| TaskRetries.StepStaysWithin | saltbox_core/tasks/repositories/tasks_minion.py:103-107 | every step keeps the counts of jobs, of unrecorded jobs and of what can still be started within the bound |
| TaskRetries.ComesBackBelowLimit | saltbox_core/jobs/jobs_watcher.py:106-114 | a row that has run becomes startable again only by a restart, below the retry limit, or out of work with an unrecorded job |
| TaskRetryRuns.BoundIsAttained | saltbox_core/tasks/tasks_watcher.py:93-96 | for every max_retries, number of lost runs and number of restarts there is a run from the beginning with exactly as many jobs as the bound allows |
| TaskScheduling.StartCovers | saltbox_core/tasks/services/tasks_lifespan.py:344-381 | one more started job keeps the new jobs sharing out exactly the taken minions, each to one job, none of them empty or over the batch size |
| TaskScheduling.StartKeepsFree | saltbox_core/tasks/services/tasks_lifespan.py:220-271 | starting a job leaves the remaining pending minions of the task free of other tasks |
| TaskScheduling.StartLeavesDue | saltbox_core/tasks/services/tasks_lifespan.py:325-339 | what is due after a start is what was due without the minions taken, and on other masters unchanged |
| TaskScheduling.StartsTakeFreeMinions | saltbox_core/tasks/services/tasks_lifespan.py:188-218 | over every run of the protocol a job takes only pending minions of its master that no other task has in work and, for a state.apply, on which no return of any state.apply job is awaited |
| TaskScheduling.ParkedMustWait | saltbox_core/tasks/services/tasks_lifespan.py:220-271 | after check_busy_task_minions a pending or busy row is busy exactly when another task has the minion in work or, for a state.apply, a return of some state.apply job is awaited from it |
| TaskScheduler.PickUpTo | saltbox_core/tasks/services/tasks_lifespan.py:336-337 | a limited query gives as many documents as there are up to the limit, and all of them for limit zero |
| TaskScheduler.Scheduler.constructor | saltbox_core/tasks/services/tasks_lifespan.py:36-68 | the service works on any records whose returns are sound, with fresh job numbers |
| TaskScheduler.Scheduler.GetBusyMinionsByTgt | saltbox_core/tasks/services/tasks_lifespan.py:188-218 | exactly the given minions that another task has in work, or, when the task is a state.apply, from which a return of some state.apply job is awaited |
| TaskScheduler.Scheduler.CheckBusyTaskMinions | saltbox_core/tasks/services/tasks_lifespan.py:220-271 | the two bulk updates come to one step: pending and busy rows whose minion is in work for another task, or awaits a return of another state.apply, are busy, the others pending; afterwards no pending row is held |
| TaskScheduler.Scheduler.CreateJob | saltbox_core/tasks/services/tasks_lifespan.py:322-389 | takes as many due minions as fit and starts one job for exactly them, does nothing when none is due, and leaves every status as it was when the launch fails |
| TaskScheduler.Scheduler.LaunchJob | saltbox_core/tasks/services/tasks_lifespan.py:344-387 | the taken rows and the stored job are one start, or a failed start with the rows pending again, whether or not the job was stored |
| TaskScheduler.Scheduler.ScheduleMaster | saltbox_core/tasks/services/tasks_lifespan.py:408-430 | the loop ends, active jobs end at most at the larger of their former number and the limit, it stops only at the limit or when nothing is due, and other masters are untouched |
| TaskScheduler.Scheduler.FillTaskMinions | saltbox_core/tasks/services/tasks_lifespan.py:397-400 | adds pending rows for the minions found that have none, and changes nothing else |
| TaskScheduler.Scheduler.CheckPolicyRequirements | saltbox_core/tasks/services/tasks_lifespan.py:273-320 | gives every candidate row the verdict on it in the stored queue of its minion, read before any row is written, and changes no other row |
| TaskScheduler.Scheduler.Judge | saltbox_core/tasks/services/tasks_lifespan.py:294-317 | the verdicts are exactly those of the candidates that stand in their queue |
| TaskScheduler.Scheduler.ApplyVerdicts | saltbox_core/tasks/services/tasks_lifespan.py:319-320 | the bulk updates, one verdict after another, come to all verdicts at once, as a run of the protocol |
| TaskScheduler.Scheduler.SyncJobs | saltbox_core/tasks/services/tasks_lifespan.py:111-128 | finishes exactly the running jobs of the task that wait for nothing |
| TaskScheduler.Scheduler.Prepare | saltbox_core/tasks/services/tasks_lifespan.py:397-403 | after filling, policy check and parking, in this order, no pending row of the task is held |
| TaskScheduler.Scheduler.ScheduleMasters | saltbox_core/tasks/services/tasks_lifespan.py:405-430 | over all accepted masters the new jobs share out exactly the taken minions, every master is served, and the totals count what was taken and what is active |
| TaskScheduler.Scheduler.HandleRunning | saltbox_core/tasks/services/tasks_lifespan.py:391-455 | a whole tick is a run of the protocol; its new jobs share out exactly the taken minions, every master ends at its limit or with nothing due, and the task ends exactly when no job is active and no row is left to run; when a launch fails the tick ends and leaves every status as it was at that point |
| TaskScheduler.TakenAreUnfinished | saltbox_core/tasks/services/tasks_lifespan.py:432-448 | whenever minions were taken some row is in work, so the count of them adds nothing to the test |
| TaskTicks.FillAdds | saltbox_core/tasks/services/tasks_lifespan.py:397-400 | after filling there is a row exactly where there was one or the minion was found, new ones pending and never started, old ones untouched |
| TaskTicks.CheckChanges | saltbox_core/tasks/services/tasks_lifespan.py:273-320 | a verdict goes to the pending, blocked and unreachable rows of the task and to no others, and the time of the last start stays |
| TaskTicks.TakenWasDue | saltbox_core/tasks/services/tasks_lifespan.py:322-389 | every row that a tick takes was pending, its last start is as long ago as the retry delay asks, its minion has been active lately, and exactly one new job of the task has it as a target |
| TaskTicks.LeftOnlyAtLimit | saltbox_core/tasks/services/tasks_lifespan.py:419-428 | on a master that was served a due row is left pending only while as many jobs of the task as allowed are starting or running there |
| TaskTicks.TaskGoesOnExactly | saltbox_core/tasks/services/tasks_lifespan.py:432-448 | after a tick the task runs on exactly when a row of it is not success, failed or unreachable or a job of it is starting or running on a listed master; otherwise a policy waits for minions and any other task is finished |
| TaskTicks.SyncFinishesExactly | saltbox_core/tasks/services/tasks_lifespan.py:111-128 | a job is finished exactly when it is a running one of the task and no return of it is awaited, and nothing else of any job changes |
| TaskQueueRuns.EventIsQueueStep | saltbox_core/tasks/tiq_tasks.py:42-76 | seen from a minion, every event on the stored rows is the one step of its queue that it stands for, or nothing |
| TaskQueueRuns.TickIsQueueStep | saltbox_core/tasks/services/tasks_lifespan.py:391-430 | seen from a minion, a tick is one tick of its queue: judged in the whole queue, then held back or freed, then started if it was taken |
| TaskQueueRuns.PingIsQueueStep | saltbox_core/tasks/services/tasks_lifespan.py:130-177 | a tick that pings the minion is one ping of its queue, with the policy judged, held back or freed as in any tick |
| TaskQueueRuns.CheckIsQueueStep | saltbox_core/tasks/services/tasks_lifespan.py:273-320 | the check of a waiting policy is one evaluation of the queue |
| TaskQueueRuns.ServeTick | saltbox_core/tasks/services/tasks_lifespan.py:391-455 | a tick of the scheduler that meets no launch error is such a tick |
| TaskQueueRuns.HistoryIsQueueRun | saltbox_core/tasks/services/tasks_lifespan.py:273-320 | every history of events, ticks, pings and checks is a run of the queue, and one without late outcomes if no event is one for the queue as it is then |
| TaskQueueRuns.RecordsRunInOrder | saltbox_core/tasks/services/tasks_minion.py:91-131 | over every history of the stored rows in which no outcome comes late, a policy's row that was started, pinged, held back or given an outcome stands behind resolved rows only and has its requirements satisfied |
| TaskQueueRuns.RecordsNeverStartStuck | saltbox_core/tasks/policy_ordering.py:49-52 | over every history at all there is never a job for a policy whose requirements lead into a cycle |
| TaskQueueRuns.RecordsStartInTurn | saltbox_core/tasks/services/tasks_lifespan.py:258-285 | whatever the stored rows are, a move that gives a row a job is a tick and finds the policy in its turn, or held back before |
| TaskQueueRuns.LayoutForMinion | saltbox_core/tasks/services/tasks_minion.py:91-131 | the layout put together from the ordered groups makes a well-ordered queue of exactly the groups' policies, whatever the rows are |
| TaskEvents.Handlers.HandleNewJob | saltbox_core/salt/handlers/new_job_handler.py:36-98 | the job runs, stored first as nobody's when it is not known, and has one waiting return per minion and one ignored per missing minion |
| TaskEvents.Handlers.HandleJobReturn | saltbox_core/salt/handlers/job_return_handler.py:168-198 | a return without retcode is filled in, a filled one is left as it is, an unknown one is an error that changes nothing; then the job finishes if it waits for nothing |
| TaskEvents.Handlers.ProcessTaskJobReturn | saltbox_core/tasks/tiq_tasks.py:19-54 | the row is success, failed at the retry limit or pending again, and only for jobs of tasks; a missing task or row is an error that changes nothing |
| TaskEvents.Handlers.ProcessTaskJobError | saltbox_core/tasks/tiq_tasks.py:58-76 | exactly the targeted rows of the task fail |
| TaskEvents.Handlers.ReleaseLockedTaskMinions | saltbox_core/tasks/tasks_watcher.py:72-104 | exactly the old in-work rows without an awaited return are released, to failed at the retry limit and else pending, in any order with the same result, as a run of the protocol |
| TaskEvents.Handlers.RestartOnMinions | saltbox_core/tasks/services/tasks_lifespan.py:93-102 | the given rows are pending and the task runs again, unless it is stopping |
| TaskEffects.NewJobAwaits | saltbox_core/salt/handlers/new_job_handler.py:55-98 | after a new-job event every minion of it has a waiting return, one that is only missing an ignored one, every other return is as before, and of the jobs only this one changes, to running |
| TaskEffects.ReturnIsKept | saltbox_core/salt/handlers/job_return_handler.py:177-198 | the first retcode decides between success and failed and a later one changes nothing; the job is finished exactly when it runs and this was the last return awaited |
| TaskEffects.ReturnDecidesRow | saltbox_core/tasks/tiq_tasks.py:42-76 | a return makes exactly its row success, or failed when the jobs of the task with a return record of the minion are as many as its retries, or pending again |
| TaskEffects.TimeoutDecidesRow | saltbox_core/jobs/jobs_watcher.py:78-120 | a timeout ends exactly that return, and makes its row failed or pending again by the same count unless it is pending already |
| TaskEffects.ErrorFailsRows | saltbox_core/tasks/tiq_tasks.py:42-76 | a launch error fails exactly the rows of the task that the job targets, whatever their status |
| TaskEffects.ReleasedExactly | saltbox_core/tasks/tasks_watcher.py:72-104 | a row is released exactly when it is in work, was started before the age limit, and no return of a job of its task is awaited from its minion; it fails when its runs are used up and is pending otherwise |
| TaskEffects.RestartFreesRows | saltbox_core/tasks/services/tasks_lifespan.py:93-102 | a restart makes exactly the given rows of the task pending, whatever their status |
| TaskEffects.FailedStartFreesRows | saltbox_core/tasks/services/tasks_lifespan.py:363-389 | the rows of a job that could not be started are pending again, with the time of the start |
| TaskEffects.StopFreesBusyRows | saltbox_core/tasks/services/task.py:516-534 | a task that is stopped gives up exactly its busy rows |
| Deadlines.OneMoreTimedOut | saltbox_core/jobs/jobs_watcher.py:78-120 | timing out returns one by one, in any order, has the closed-form effect on returns and rows: a hit row is tried again or fails once |
| Deadlines.HalvesMakePass | saltbox_core/jobs/jobs_watcher.py:138-175 | the two halves of a pass come to the deadline rule applied once |
| Deadlines.PassTimesOutWhatIsOverdue | saltbox_core/jobs/repositories/job_return_repository.py:96-112 | on a running job a pass times out a waiting return exactly when creation plus its own ttl, or else the job's, is over |
| Deadlines.PassFinishesWhatIsDone | saltbox_core/jobs/jobs_watcher.py:122-136 | a pass finishes a running job exactly when it was touched and waits for nothing any more |
| Deadlines.PassIsIdempotent | saltbox_core/jobs/jobs_watcher.py:138-184 | a second pass at the same time changes nothing |
| Deadlines.ReportedDeadlineIsUsed | saltbox_core/jobs/services/job_services.py:125-178 | the deadline set_ttl reports, in which a zero ttl of a job is the longest ttl, is the one later passes use: always for named minions, and for the job's ttl exactly on returns without a different ttl of their own |
| Deadlines.ZeroTtlOfReturnEndsWaiting | saltbox_core/jobs/services/job_services.py:156-171 | a zero ttl set on a return makes the next pass time it out |
| JobsWatcher.Watcher.TimeoutJobReturn | saltbox_core/jobs/jobs_watcher.py:78-120 | a return that still waits times out and its row, unless pending, is tried again or fails; otherwise nothing changes |
| JobsWatcher.Watcher.FinishCompletedJobs | saltbox_core/jobs/jobs_watcher.py:122-136 | exactly the running jobs among the given ones that wait for nothing are finished |
| JobsWatcher.Watcher.TimeoutAll | saltbox_core/jobs/jobs_watcher.py:152-153 | the loop times out exactly the listed returns, as a run of the protocol |
| JobsWatcher.Watcher.ProcessExpiredJobs | saltbox_core/jobs/jobs_watcher.py:138-157 | the nested loops time out exactly the waiting returns without own ttl of overdue running jobs, then finish what is done |
| JobsWatcher.Watcher.ProcessExpiredJobReturns | saltbox_core/jobs/jobs_watcher.py:159-175 | the loop times out exactly the overdue waiting returns with own ttl, then finishes what is done |
| JobsWatcher.Watcher.Process | saltbox_core/jobs/jobs_watcher.py:177-184 | one pass is the deadline rule, and a run of the protocol |
| MinionMerge.MergeKeepsSingleManualItems | saltbox_core/minion_collections/services/minion.py:130-151 | under every strategy no minion ends with two manual items in a single-item category |
| MinionMerge.UseSourceTakesOver | saltbox_core/minion_collections/services/minion.py:133-134 | USE_SOURCE leaves the target exactly the source's manual items |
| MinionMerge.MergeAddsUp | saltbox_core/minion_collections/services/minion.py:153-165 | outside conflicts MERGE leaves the target the multiset sum of both minions' items |
| MinionMerge.ConflictExactly | saltbox_core/minion_collections/services/minion.py:133-145 | a conflict is a single-item category in which both minions hold a manual item, in whatever place |
| MinionMerge.ConflictIsSettled | saltbox_core/minion_collections/services/minion.py:148-165 | in a conflict USE_TARGET leaves the target all that it held there, and USE_SOURCE gives it exactly the manual items of the source in its places and the system items of both |
| MinionMerge.UseTargetKeepsAll | saltbox_core/minion_collections/services/minion.py:153-165 | strategy USE_TARGET leaves the target exactly what it held, of either kind and in every place |
| MinionMerge.UseSourceAddsSystemItems | saltbox_core/minion_collections/services/minion.py:133-165 | strategy USE_SOURCE adds the system items of the source to those of the target |
| MinionMerge.MergeLeavesTheRest | saltbox_core/minion_collections/services/minion.py:170-178 | the target loses no system item, third minions change in nothing, and the source holds nothing any more |
| MinionMerge.SystemItemsMayDouble | saltbox_core/minion_collections/services/minion.py:145-151 | the target ends with at most one system item exactly when one of the two minions had none or the source's items were dropped |
| MinionStore.Minions.constructor | saltbox_core/minion_collections/repositories/extra_data.py:53-60 | nothing is stored yet |
| MinionStore.Minions.GetMinionCategories | saltbox_core/minion_collections/repositories/extra_data.py:124-136 | exactly the categories with a record in which the minion has an entry of the kind |
| MinionStore.Minions.GetStaticManualCategories | saltbox_core/minion_collections/services/minion.py:56-64 | exactly the categories with a manual item |
| MinionStore.Minions.CollectItems | saltbox_core/minion_collections/services/minion.py:153-165 | per category the target's items, or only its system items where replaced, followed by the source's unless dropped; other categories are not written |
| MinionStore.Minions.WriteMerged | saltbox_core/minion_collections/services/minion.py:167-175 | the writes on the target: its items are the collected ones, and of the entries the target owns its own, without replaced manual ones, and the source's outside the dropped categories |
| MinionStore.Minions.PullMinionsEntries | saltbox_core/minion_collections/repositories/extra_data.py:80-94 | in the category the minions own nothing of the kind any more; every other minion, kind and record owns and shares what it did |
| MinionStore.Minions.PullAllMinionsEntries | saltbox_core/minion_collections/repositories/extra_data.py:96-103 | the minions own nothing in any record any more, and every other minion what it did |
| MinionStore.Minions.MoveMinionEntries | saltbox_core/minion_collections/repositories/extra_data.py:105-122 | outside the excluded categories the target owns the multiset sum of what both owned and the source nothing, in every record and of either kind; all else is owned as before |
| MinionStore.Minions.PushMinionsEntries | saltbox_core/minion_collections/repositories/extra_data.py:62-78 | the entries come to the record whose shared data is numerically equal, or to a new one, and no record changes its shared data |
| MinionStore.Minions.Merge | saltbox_core/minion_collections/services/minion.py:104-178 | succeeds exactly for two different minions of the collection, a never-active source and no conflict left to ERROR; then every minion holds exactly what the merge rule says, of either kind and in every place; a failure writes nothing and names exactly the conflicts |
| MinionStore.Minions.MakeStaticItems | saltbox_core/minion_collections/services/extra_data.py:112-120 | one item per data, in order, for each existing minion |
| MinionStore.Minions.MakeEntries | saltbox_core/minion_collections/services/extra_data.py:138-151 | the groups hold exactly one entry per data of every minion, each in the group of the JSON text of its shared part, and every group has the shared part of its first entry |
| MinionStore.Minions.WriteItems | saltbox_core/minion_collections/services/extra_data.py:96-158 | for every existing minion the wanted items come to what it held, or replace it in the category; each stands in the record of the first shared part with its JSON text; other minions, the other kind and other categories keep what they held |
| ExtraData.OwnedAfterPull | saltbox_core/minion_collections/repositories/extra_data.py:89-94 | after a pull the named minions own nothing of the named kinds and everyone else what they owned |
| ExtraData.OwnedAfterMove | saltbox_core/minion_collections/repositories/extra_data.py:117-122 | after a move the source owns nothing, the target the multiset sum, and everyone else what they owned |
| ExtraDataCategory.CleanData | saltbox_core/minion_collections/schemas/extra_data_category.py:123-160 | the loops over data and fields give all values cleaned, or exactly the errors |
| ExtraDataCategory.SplitData | saltbox_core/minion_collections/schemas/extra_data_category.py:162-180 | the loop gives exactly the shared and the own fields |
| ExtraDataCategory.AcceptedTypes | saltbox_core/minion_collections/schemas/extra_data_category.py:18-34 | a value is accepted as it is exactly when it has the type of its field or is an integer for a float field; the only other values accepted are texts that read as dates in date fields, which become those dates |
| ExtraDataCategory.RefusedExactly | saltbox_core/minion_collections/schemas/extra_data_category.py:123-160 | data is refused if and only if a value does not fit its field, an empty one where none is allowed among them, a field is unknown and the category ignores such, or a field that must not be empty is missing, when only the own part is asked for, one of the minion |
| ExtraDataCategory.AcceptedKeepsValues | saltbox_core/minion_collections/schemas/extra_data_category.py:123-160 | accepted data keeps exactly its fields, and every value but the texts of date fields, which become the dates they read as |
| ExtraDataCategory.FieldsGoWhereTheyBelong | saltbox_core/minion_collections/schemas/extra_data_category.py:162-180 | a minion field of the schema is stored in the entry and only there, any other field of the schema in the shared data and only there, with its value |
| ExtraDataCategory.UnknownGoWhereTheCategorySays | saltbox_core/minion_collections/schemas/extra_data_category.py:170-178 | an unknown field is stored in the entry, in the shared data or nowhere, as the category says, and nothing is stored that was not given |
| ExtraDataCategory.CleanTwice | saltbox_core/minion_collections/schemas/extra_data_category.py:18-34 | cleaning cleaned data succeeds and changes nothing |
| ExtraDataCategory.SplitThenReadBack | saltbox_core/minion_collections/repositories/extra_data.py:156-157 | cleaned data is split into parts without a common field, and reading overlays them to the same data |
| ExtraDataCategory.ReadBackIsWhole | saltbox_core/minion_collections/schemas/extra_data_category.py:170-178 | any data comes back whole exactly when it has no unknown field in a category that ignores them |
| ExtraDataWrites.WriteLeavesTheRest | saltbox_core/minion_collections/repositories/minion.py:390-400 | a write leaves other minions, items of the other kind and other categories alone |
| ExtraDataWrites.RunKeepsSingle | saltbox_core/minion_collections/services/extra_data.py:168-194 | over every run of adding, replacing and importing a single-item category has at most one item per minion and kind |
| ExtraDataWrites.ReplaceReadsBack | saltbox_core/minion_collections/services/extra_data.py:133-158 | after a replacing write a reader finds, for that minion and kind and up to the writing of numbers, exactly the written data with the shared part that its JSON text gives it |
| ExtraDataWrites.AddReadsBack | saltbox_core/minion_collections/services/extra_data.py:133-158 | after an adding write a reader finds exactly what could be read before and the written data with the shared part that its JSON text gives it |
| ExtraDataWrites.AllComesBack | saltbox_core/minion_collections/services/extra_data.py:149-150 | all data written to an aggregated category comes back if and only if shared parts with one JSON text are the same to the database |
| ExtraDataWrites.DateMixesWithText | saltbox_core/minion_collections/services/extra_data.py:149-150 | a date and the text `str` makes of it have one JSON text, so one of the two does not come back |
| ExtraDataService.CleanDatas | saltbox_core/minion_collections/services/extra_data.py:56-94 | manual items are accepted exactly when all are usable and not too many; of automatic ones the usable stay, in a single-item category the last |
| ExtraDataService.UnknownFieldDecides | saltbox_core/minion_collections/services/extra_data.py:66-85 | where unknown fields are ignored, manual data with one is not usable, and automatic data with one is usable exactly as it is without it |
| ExtraDataService.UsableExactly | saltbox_core/minion_collections/services/extra_data.py:66-85 | data without unknown fields, or for a category that keeps them, is usable exactly when it is not empty, every value fits and no field is missing, manual or automatic |
| ExtraDataService.ReplaceItems | saltbox_core/minion_collections/services/extra_data.py:175-194 | refused exactly when a manual item is not acceptable; otherwise the accepted items replace, unless none of some is usable |
| ExtraDataService.AddItems | saltbox_core/minion_collections/services/extra_data.py:160-173 | a usable item is added, or replaces in a single-item category; a manual one that is not usable is refused and an automatic one adds nothing |
| ExtraDataService.GroupRows | saltbox_core/minion_collections/services/extra_data.py:223-241 | every minion gets exactly the data of its rows in order, and unknown rows are skipped or fail the import |
| ExtraDataService.ImportItems | saltbox_core/minion_collections/services/extra_data.py:196-263 | an import is written whole or not at all; it is refused exactly for file errors, unknown minions that are not skipped, and two rows for a minion in a single-item category |
| ExtraDataMigration.SingleTypeTakesAll | saltbox_core/minion_collections/migrations/0004_single_type_extra_fields.py:173-183 | a value of one of the old types can be cast to the single type exactly unless it is a bool, bytes, list or dict and that type is str |
| ExtraDataMigration.NoTypeIsText | saltbox_core/minion_collections/migrations/0004_single_type_extra_fields.py:173-178 | without any type, or with str among the types, the single type is str |
| ExtraDataMigration.LoneTypeIsKept | saltbox_core/minion_collections/migrations/0004_single_type_extra_fields.py:179-180 | a type that is listed once, beside no other, is kept |
| ExtraDataMigration.SeveralTypesAreJoined | saltbox_core/minion_collections/migrations/0004_single_type_extra_fields.py:181-183 | several types, or one that is listed twice, become float when all are numbers and str otherwise |
| ExtraDataMigration.CastExactly | saltbox_core/minion_collections/migrations/0004_single_type_extra_fields.py:213-263 | a cast leaves a value that is empty or fits as it is, and gives another one exactly for numbers and dates written as texts, whole floats as integers, and texts that read as a number or a date; every other value is dropped |
| ExtraDataMigration.DroppedExactly | saltbox_core/minion_collections/migrations/0004_single_type_extra_fields.py:340-346 | an entry is dropped exactly when it or its record had data and no value of either can be cast |
| ExtraDataMigration.CastTwice | saltbox_core/minion_collections/migrations/0004_single_type_extra_fields.py:213-263 | casting a cast value is the identity, for every type |
| ExtraDataMigration.CastDataTwice | saltbox_core/minion_collections/migrations/0004_single_type_extra_fields.py:266-283 | casting cast data changes nothing |
| ExtraDataMigration.CleanedValuesStay | saltbox_core/minion_collections/migrations/0004_single_type_extra_fields.py:246-263 | the cast leaves a value that is not empty as it is exactly when the cleaning of items accepts it as it is |
| ExtraDataMigration.SkippedExactly | saltbox_core/minion_collections/migrations/0004_single_type_extra_fields.py:350-351 | a record compares equal to its cast if and only if it has anything at all, loses no value, and every value that changes is a whole float in an int field |
| ExtraDataMigration.UncastExactly | saltbox_core/minion_collections/migrations/0004_single_type_extra_fields.py:350-351 | a record that casting changes is left as it is if and only if no value of it is dropped and only whole floats in int fields would change |
| ExtraDataMigration.WholeFloatStays | saltbox_core/minion_collections/migrations/0004_single_type_extra_fields.py:350-351 | four cores stored as 4.0 stay a float, which the cleaning of items then refuses for an int field |
| ExtraDataMigration.ProcessedKeepsTotal | saltbox_core/minion_collections/migrations/0004_single_type_extra_fields.py:332-362 | whatever happens to one record, removal, skipping, rewriting, merging or moving, all that is to come out, up to the writing of numbers, stays the same |
| ExtraDataMigration.AggregatedData.CastRecord | saltbox_core/minion_collections/migrations/0004_single_type_extra_fields.py:337-362 | the calls for one record: removed, left alone when all compares equal, rewritten where it is, or put under its new data, where its entries join a record that is there |
| ExtraDataMigration.AggregatedData.CastAggregatedData | saltbox_core/minion_collections/migrations/0004_single_type_extra_fields.py:329-362 | every entry that is not dropped ends, cast up to the writing of numbers, in exactly one record, the dropped ones are counted, the unique index holds, every record is one that processing skips, and a second pass changes nothing |
| ExtraDataMigration.OutdatedReadLosesEntries | saltbox_core/minion_collections/migrations/0004_single_type_extra_fields.py:332-362 | entries merged into a record after it was read survive exactly when the record as read is skipped |
| TgtExpressions.EvalOr | saltbox_core/utilities/mongo_query_to_salt_tgt_converter.py:79-80 | words joined by `or` mean the disjunction, whatever balanced words stand on the left |
| TgtExpressions.EvalAnd | saltbox_core/utilities/mongo_query_to_salt_tgt_converter.py:79-80 | words without an outer `or` joined by `and` mean the conjunction |
| TgtExpressions.OnlyBalancedMeans | saltbox_core/utilities/mongo_query_to_salt_tgt_converter.py:155-158 | only words with matching parentheses are an expression |
| TgtConverter.Process | saltbox_core/utilities/mongo_query_to_salt_tgt_converter.py:138-151 | the loop over the entries prints the specification, the first error included |
| TgtConverter.ProcessGroup | saltbox_core/utilities/mongo_query_to_salt_tgt_converter.py:73-82 | the loop over the items prints the specification, and an empty group is an error |
| TgtConverter.OneTestMeans | saltbox_core/utilities/mongo_query_to_salt_tgt_converter.py:84-134 | what is printed for one test of the grain that the key names, `id` for the minion id, is true exactly when the minion satisfies the glob, the pattern or one of the listed values, or for the negated conditions when it does not |
| TgtConverter.RefusedExactly | saltbox_core/utilities/mongo_query_to_salt_tgt_converter.py:70-151 | a query is refused exactly when it has, at any depth and whatever its keys, an unsupported operator, an invalid value, a group that is no list or an empty group |
| TgtConverter.Convert | saltbox_core/utilities/mongo_query_to_salt_tgt_converter.py:153-158 | the printed words without their first and last parenthesis, when there are both |
| TgtConverter.PrintedQueryMeans | saltbox_core/utilities/mongo_query_to_salt_tgt_converter.py:70-151 | what is printed for a safe query is balanced and, read with `and` tighter than `or`, has the truth value of the query for every minion, each test read by the grain that its key names |
| TgtConverter.ConvertedMeans | saltbox_core/utilities/mongo_query_to_salt_tgt_converter.py:155-158 | after the strip the words mean the query, unless the outermost parentheses belong to different groups: then they are no expression |
| TgtConverter.SeveralEntriesUnderOr | saltbox_core/utilities/mongo_query_to_salt_tgt_converter.py:151-151 | a document of several safe entries under `$or` is printed as their disjunction without parentheses, and agrees with the document at exactly the minions where all entries hold or none does |
| TgtConverter.OrGroupMeansAnyEntry | saltbox_core/utilities/mongo_query_to_salt_tgt_converter.py:70-82 | an `$or` of such documents is printed as the disjunction of all their entries, and agrees with the query at exactly the minions where some document holds whole or no entry of any does |
| TgtConverter.UnknownKeyIsLeftOut | saltbox_core/utilities/mongo_query_to_salt_tgt_converter.py:146-149 | an entry with an unknown key leaves no trace in the target |
| Jid.MomentRoundTrip | saltbox_core/utilities/jid.py:85-91 | every moment from 1970 on is written and read back as itself, an earlier one is refused |
| Jid.TextRoundTrip | saltbox_core/utilities/jid.py:43-68 | what is read as a job id is the text of its moment, up to a line break at the end |
| Jid.OrderAgrees | saltbox_core/utilities/jid.py:76-83 | job ids are ordered and equal exactly as their moments are |

## Left out

- MongoDB, Redis, RabbitMQ and taskiq, sessions, notifications, metrics and routers: collections are maps, conditional updates are atomic steps.
- The SDK's tree repository: how a move finds its target and a delete its subtree; sibling order, titles and the unique index on slugs, which is taken as given for new slugs.
- Query overrides other than `collection`, and the aggregation pipelines beyond the derived fields cited: they do not touch collection references.
- collection_order_path: the queue takes the groups in the order they come; a policy is taken to require only policies of its own collection.
- TaskQueueRuns.HistoryIsQueueRun: a history keeps the policies of the minion and their places; for one that comes in InsertionBreaksOrder says when the order survives, and a queue that is in order begins another history. Policies of the queue whose task is stopping or not active, their restarts, and ticks that end in a launch error are no moves of a history; the protocol of tasks and jobs has them all.
- PolicyDraining.QueueDrains: restarts; the rounds that are counted are those after the last late outcome.
- check_unactive_minions: the masters' answers to a ping and the choice of the minions; a ping goes to any rows that are pending at the end of a tick.
- TaskEvents.Handlers.HandleNewJob: the minions and the missing ones of an event are taken to be different, as one return record per minion requires.
- Task status bookkeeping: starting, stopping by ttl, wait_minions and the data stored with a status.
- The order of the errors and of the fields in dictionaries where nothing depends on it; errors of extra data are sets.
- ExtraDataWrites.ReplaceReadsBack: the JSON text of shared data is a parameter, and the database is taken to tell data apart up to whole floats and integers; the order of fields in a stored document, and numbers inside lists and documents, are not part of it.
- Casting of static items in the migration: the same cast in a loop without merging; the counters other than that of dropped items.
- ExtraDataMigration.CastTwice: numbers are reals, so NaN and infinities are not modelled.
- Converter text of single matchers and the printing of `null`; queries with unknown keys are covered only by UnknownKeyIsLeftOut.
- TgtConverter.PrintedQueryMeans: documents with several entries are covered where entries are joined by `and`; under `$or` SeveralEntriesUnderOr and OrGroupMeansAnyEntry say what is printed.
- Jid.MomentRoundTrip: for years below 1000 the refusal is `OutOfBounds`; where `%Y` is not padded the code would report a wrong number of digits instead.
- Digits other than ASCII in job ids, timestamps as floats and the generation of ids from the clock.
- ConcurrencyLocker, template sources, git, archives, file transfer, pillar encryption, pillar schemas and CSV parsing: mostly foreign calls.
