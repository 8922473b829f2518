# A model of the orchestrator in Dafny

The orchestrator of the Python daemon keeps four pieces of state whose correctness lies in invariants over whole runs.
This project models each as the code has it, with classes for what is updated in place, and proves those invariants.
Paths below are relative to the root of the repository.

**Task queue** (`TaskStore`, `QueueRepo`, `Worker`, and the lemma files beginning with `Task`). `TaskStore` gives each
repository call as a function on an immutable store, with runs as sequences of calls. `QueueRepository` implements the
calls with loops over its tables, and each method is proved to take the step of its function. On runs the project
proves ancestor safety, the exact cascade, provenance of pruning, revisions as version numbers, absence of deadlock,
draining and reroll accounting, exclusive leases and oldest-first order, and says exactly when safety and progress are
lost. `TaskEffects` writes out, column by column, what each call changes. `DaemonWorker.RunForever` is proved to
produce only runs to which ancestor safety applies.

**Descendants** (`Graphs`, `Graphlib`, `DagRuntime`, `TaskQuery`). Kahn's algorithm with its predecessor counters
stands for `graphlib.TopologicalSorter`. The recursive query, the stack search and the sort are proved separately and
together.

**Patches** (`PatchFiles`, `PatchService`, `PatchUndo`, `DiffPaths`, `PythonText`). Files are a map from locations to
bytes. `git apply` may write anything to the affected files, fail after writing some of them, or be cut off by its
timeout. The service keeps a ghost ledger of the runs that changed the files, from which newest-first rollback is
proved. `DiffPaths` relates the header lines of a built diff to the paths that validation reads back.

**Ingest index** (`IngestIndex`, `IngestService`, `IngestAgreement`, `IngestManifest`, `IngestIsolation`,
`IngestCounts`, `IngestCounterexample`, `TextChunks`). The chunk rows of SQLite and the vectors of the collection are
two maps with the same keys. Histories mix ingest calls and rebuilds, with failing upserts, metadata reads and
processors.

**Pipelines** (`Templates`, `PipelineCompiler`, `PipelineMeaning`, `WorkflowRunner`, `WorkflowMeaning`). The compiler
is proved to accept exactly the definitions a declarative predicate describes. A run is a trace of records, for an
arbitrary sequence of tool responses.

## What does not hold, and exactly when it does

- A task may name itself as its parent, since the foreign key allows it
  (`TaskCounterexample.SelfParentBlocksQueries`). The recursive query for it never ends
  (`TaskQuery.QueryStopsUnlessSelfParent`), it can never be claimed (`TaskSoundness.SelfParentsAreNeverClaimed`), and
  the tasks below it wait for ever, which is the only deadlock (`TaskDraining.DeadlockExactly`). `RejectAndPrune` and
  `RejectApproval` require another task, because a call that does not end has no result to describe.
- `complete_task` does not ask for a claim, and completing a task before its parent can break ancestor safety
  (`TaskCounterexample.UnclaimedCompletionBreaksSafety`). It is enough that completions follow claims, as the worker's
  do (`Worker`). Exactly needed is that no finished task has an unfinished parent (`TaskSoundness.SafetyExactly`), and
  exactly the calls that complete an ACTIVE task while a parent is unfinished end that
  (`TaskSoundness.SoundRunsExactly`).
- A bare transition can park a task in PENDING_APPROVAL without an approval row
  (`TaskApprovals.ParkedWithoutApproval`). Otherwise each ACTIVE task there has an open one
  (`TaskApprovals.DecidableRunsExactly`).
- One rebuild of the vectors can leave chunks out, because a later call for an unchanged file marks its failed run
  COMPLETED (`IngestCounterexample.OneRebuildMayNotSuffice`). `IngestAgreement.OneRebuildRestoresExactly` says when
  one is enough.
- No rebuild helps a project with a blank chunk, for which embedding raises every time; two rebuilds help every other
  one (`IngestManifest.RecoveryFromAnyHistory`). Text with a long stretch of white space has such chunks
  (`IngestCounterexample.BlankWindow`, `BlankWindowBlocksRebuilds`).
- A call that fails on anything but its vectors can leave its run RUNNING, when the newest run of the project is
  another one in FAILED_VECTOR_UPSERT (`IngestCounterexample.FailureMayStayRunning`). `IngestIsolation.RunEndsExactly`
  gives the state of every run after every call.
- A file that had chunks and becomes blank, or can no longer be processed, keeps its old manifest row without chunks
  (`IngestManifest.FileFaithfulExactly`). When the old content returns it is skipped and stays without chunks
  (`IngestCounterexample.ReturningContentStaysWithoutChunks`).
- The chunker accepts a negative overlap, and with it a negative chunk, and then drops text
  (`TextChunks.CoverageExactly`, `NegativeOverlapDropsACharacter`).
- A compiled plan can hold references: the compiler resolves and inspects texts, not the step and path of a binding,
  which serializing turns into texts (`PipelineCompiler.PlanArgumentsAreClosed`, `BindingPathKeepsReference`; `${x}`
  is such a path by `SomePathHasAReference`).
- A step's artifact under `binding_trace` or `pipeline_receipt` does not survive a completed run
  (`WorkflowRunner.AccountOverridesSteps`); those under keys that nothing is attached to do
  (`WorkflowRunner.AttachmentsOverrideOnlyTheirKeys`).
- Declared tests may write outside the affected files, and rollback leaves those files as the tests left them
  (`PatchUndo.UntidyTestsSurviveRollback`). A run is undone completely if and only if no tests ran or what they wrote
  outside the files that the approved diff affects was there before (`PatchUndo.ApplyThenRestore`).
- A literal dict that looks like a serialized binding passes the compiler and dangles at run time
  (`WorkflowRunner.DisguisedBindingDangles`), exactly when no earlier step has the name it asks for
  (`WorkflowRunner.MissingStepExactly`). Bindings of the definition cannot.
- A timeout of `git apply` is not caught by `apply_approved_patch`: the exception leaves files as `git apply` left
  them and the run SNAPSHOTTED. An exception of the memory commit leaves the call after the patch is in place and its
  run recorded. Every other outcome is all-or-nothing, and a run that an exception left behind can be restored.
- A removed line beginning `-- `, or an added one beginning `++ `, is read as a diff header
  (`DiffPaths.DisguisedLineNamesAnotherFile`). For paths that a header line can carry, the affected paths then hold
  more than the touched files, never fewer (`DiffPaths.AffectedExactly`).
- `_validate_bindings` makes four checks. On the sorted, validated definitions it is called with they amount to one:
  the source is in `depends_on`.

## Modelling choices

- Each repository method is one atomic step, as the daemon is a single asyncio thread and `run_once` is synchronous. A
  method that commits to both databases commits once.
- Times are arbitrary integers. Rows created at the same time come in any order.
- `serial` in `Task` is a history variable: the number of rows when the row was made. No method reads it.
- Generated identifiers are fresh. Hashes are injective.
- The arbitrary order of sets, of SQL rows without `ORDER BY`, and of `set(depends_on)` is a free choice in the
  methods, so contracts hold for every order.
- The responses of tools, the writes of `git apply` and of declared tests, faults of the vector store, of metadata
  reads and of snapshots are parameters.
- `difflib` and `git` are described by what their output lines and writes may be. `git apply` writes to the affected
  paths only, as it does for diffs of the form `_build_diff` makes. Diffs with a pure rename or a change of mode only,
  whose paths no `---` or `+++` line names, are not covered.
- Recursive functions stand for the comprehension-like parts of the code, loops for its loops.

## Model

| member | source | states |
|---|---|---|
| `Graphlib.TopologicalSorter.Add` | backend/python-daemon/orchestrator/dag_runtime.py:8-17 | `add(node, *predecessors)` registers the node and its predecessors and records exactly the edges from them to the node, duplicates kept |
| `Graphlib.TopologicalSorter.StaticOrder` | backend/python-daemon/orchestrator/dag_runtime.py:18 | Kahn's algorithm: it reports a cycle if and only if the recorded edges have one; otherwise the result lists every node once, each after all its predecessors |
| `Graphlib.StuckMeansCyclic` | backend/python-daemon/orchestrator/dag_runtime.py:18 | when the queue runs dry before every node is out, the edges have a cycle |
| `Graphlib.PendingAfterDone` | backend/python-daemon/orchestrator/dag_runtime.py:18 | finishing a node lowers each successor's counter of open predecessors by its number of parallel edges |
| `DagRuntime.GroupByParent` | backend/python-daemon/orchestrator/dag_runtime.py:22-24 | `children_by_parent` holds exactly the edges it was filled with |
| `DagRuntime.CollectDescendants` | backend/python-daemon/orchestrator/dag_runtime.py:21-33 | on every edge list, cyclic ones included, the stack search ends and returns exactly the nodes reachable by one or more edges |
| `DagRuntime.Visit` | backend/python-daemon/orchestrator/dag_runtime.py:27-32 | expanding an unseen node keeps the search invariant and strictly shrinks the set of targets not yet seen |
| `DagRuntime.TopologicalDescendants` | backend/python-daemon/orchestrator/dag_runtime.py:6-18 | fails if and only if the edges between descendants that do not leave the root have a cycle; otherwise it returns each node reachable from the root once, parents before children unless the parent is the root |
| `DagRuntime.OrderSpelledOut` | backend/python-daemon/orchestrator/dag_runtime.py:6-18 | position by position in the order returned: each node has a path from the root, none stands twice, and every edge that does not leave the root points forward |
| `DagRuntime.AcyclicEdgesHaveNoInnerCycle` | backend/python-daemon/orchestrator/dag_runtime.py:6-18 | on acyclic edges the sort never fails |
| `DagRuntime.ReachableEdgesSuffice` | backend/python-daemon/orchestrator/queue_repo.py:314-330 | an order is right for the edges the recursive query returns if and only if it is right for all edges of the table, and the nodes and inner edges are the same |
| `TaskInvariants.StepEvolves` | backend/python-daemon/orchestrator/queue_repo.py:215-312 | every call that changes a versioned column raises the revision, no call lowers it, COMPLETED is absorbing and resolutions only harden |
| `TaskInvariants.NewRowsAreFresh` | backend/python-daemon/orchestrator/queue_repo.py:51-85 | a new row is PLANNING, ACTIVE and unleased, and new edges lead to new rows only |
| `TaskInvariants.RevisionIsAVersion` | backend/python-daemon/orchestrator/queue_repo.py:142-147 | at any two moments of a run at which a task has the same revision, its state, resolution, lease, reroll count and constraints are the same, whichever calls came between |
| `TaskInvariants.ResolutionOnlyHardens` | backend/python-daemon/orchestrator/queue_repo.py:272-312 | over any run no resolution returns to ACTIVE, REJECTED never changes, COMPLETED is final and rows do not vanish |
| `TaskInvariants.RunIsForest` | backend/python-daemon/orchestrator/db_bootstrap.py:43-52 | in every reachable store each task has at most one parent edge, to an earlier row or to itself |
| `TaskInvariants.PathsDescend` | backend/python-daemon/orchestrator/db_bootstrap.py:43-52 | along any path of edges creation order strictly increases, except on the edge of a task to itself |
| `TaskInvariants.CyclesAreSelfParents` | backend/python-daemon/orchestrator/queue_repo.py:51-85 | a task of a reachable store lies on a cycle if and only if it is its own parent |
| `TaskInvariants.RunIsWellResolved` | backend/python-daemon/orchestrator/queue_repo.py:118-150 | in every reachable store a leased task is ACTIVE, and every CASCADE_PRUNED task names as its pruner a REJECTED strict ancestor |
| `TaskInvariants.DescendantsAreReachable` | backend/python-daemon/orchestrator/queue_repo.py:314-330 | the cascade set is reachability by one or more edges |
| `TaskInvariants.ExactCascade` | backend/python-daemon/orchestrator/queue_repo.py:272-312 | the task becomes REJECTED, unleased, with the reason and one revision on; exactly the ACTIVE tasks below it become CASCADE_PRUNED, unleased and one revision on; every other row and column is untouched; no task below stays ACTIVE; exactly the lease rows of the task and of those below it are gone |
| `TaskSafety.AncestorSafety` | backend/python-daemon/orchestrator/queue_repo.py:118-153 | in every run that completes only claimed tasks, every task ever claimed and still ACTIVE has all its transitive ancestors COMPLETED and ACTIVE, at every moment |
| `TaskSafety.RunIsGuarded` | backend/python-daemon/orchestrator/queue_repo.py:118-153 | the inductive invariant, kept by every run whatever completes tasks: direct parents of claimed ACTIVE tasks are finished |
| `TaskSafety.FinishedAncestor` | backend/python-daemon/orchestrator/queue_repo.py:118-153 | where no finished task has an unfinished parent, a check of direct parents reaches every ancestor along any path |
| `TaskSafety.SoundIsSafe` | backend/python-daemon/orchestrator/queue_repo.py:118-153 | in any reachable store where no finished task has an unfinished parent, every claimed ACTIVE task has all its ancestors finished |
| `TaskSafety.ClaimingFirstIsSound` | backend/python-daemon/orchestrator/queue_repo.py:244-267 | runs that complete only claimed tasks never finish a task with an unfinished parent |
| `TaskSoundness.SafetyExactly` | backend/python-daemon/orchestrator/queue_repo.py:118-153 | at the end of any run: no finished task has an unfinished parent if and only if every way to create a task and claim one leaves each claimed ACTIVE task with finished ancestors |
| `TaskSoundness.StepIsSoundExactly` | backend/python-daemon/orchestrator/queue_repo.py:244-267 | one call from a store where no finished task has an unfinished parent leads to such a store if and only if an ACTIVE task it completes has no unfinished parent but itself |
| `TaskSoundness.SoundRunsExactly` | backend/python-daemon/orchestrator/queue_repo.py:244-267 | over any run: no finished task ever has an unfinished parent if and only if every call that completes an ACTIVE task finds its parents, other than itself, finished |
| `TaskSoundness.SelfParentsAreNeverClaimed` | backend/python-daemon/orchestrator/queue_repo.py:118-153 | in no run is a task claimed that is its own parent |
| `TaskCounterexample.UnclaimedCompletionBreaksSafety` | backend/python-daemon/orchestrator/queue_repo.py:244-267 | a run with one completion that no claim preceded, after which a claimed ACTIVE task has an unfinished ancestor |
| `TaskCounterexample.SelfParentBlocksQueries` | backend/python-daemon/orchestrator/queue_repo.py:51-85 | a run of one `create_task` after which the recursive query for the task does not end and the claim query finds nothing although the task is unfinished |
| `TaskDraining.DeadlockExactly` | backend/python-daemon/orchestrator/queue_repo.py:118-153 | in a single-project store with everything ACTIVE, unleased and not waiting for approval, the claim query comes back empty if and only if every unfinished task is at the end of a path of unfinished tasks from one that is its own parent |
| `TaskDraining.NoDeadlock` | backend/python-daemon/orchestrator/queue_repo.py:118-153 | when besides no unfinished task is its own parent, the claim query comes back empty if and only if every task is COMPLETED |
| `TaskDraining.DrainingTakesOneRoundEach` | backend/python-daemon/orchestrator/queue_repo.py:244-267 | however ties between creation times fall and whoever claims in each round, claiming and completing finishes the n unfinished tasks that wait for no self-parent in exactly n rounds, none twice, parents before children, and then nothing is ready |
| `TaskAccounts.RerollConservation` | backend/python-daemon/orchestrator/execution_loop.py:42-53 | when rerolls come only from handled failures, each task has one constraint per reroll and exactly max(0, rerolls - max(0, limit)) reroll-limit dead letters |
| `TaskAccounts.ConstraintsCountRerolls` | backend/python-daemon/orchestrator/queue_repo.py:395-411 | in every run whatever, the reroll count equals the number of negative constraints |
| `TaskAccounts.LeasedTasksHaveRows` | backend/python-daemon/orchestrator/queue_repo.py:118-169 | in every reachable store a leased task has a row in the control database that names its owner |
| `TaskLeases.NoTaskIsHandedOutTwice` | backend/python-daemon/orchestrator/queue_repo.py:118-209 | over any run: between two claims of one task there is a release at a time later than the end of the first lease, or a constraint added to the task |
| `TaskLeases.OlderTasksGoFirst` | backend/python-daemon/orchestrator/queue_repo.py:118-153 | in draining, of two tasks that are ready at the same time the one created first is claimed first, whatever happens in between |
| `TaskEffects.ClaimPicksOldest` | backend/python-daemon/orchestrator/queue_repo.py:124-141 | a claimed row is PLANNING, ACTIVE, unleased, of the project, with all parents COMPLETED and ACTIVE, and no such row was created earlier |
| `TaskEffects.EmptyClaimExactly` | backend/python-daemon/orchestrator/queue_repo.py:124-141 | a claim comes back empty if and only if there is no such row |
| `TaskEffects.ClaimEffect` | backend/python-daemon/orchestrator/queue_repo.py:140-168 | a claim writes owner, end of lease and revision of one row and adds one lease row, and nothing else |
| `TaskEffects.ReleaseEffect` | backend/python-daemon/orchestrator/queue_repo.py:176-208 | a release takes exactly the leases that end before the given time, with their lease rows, raises the revision of exactly these rows and leaves every other row as it was |
| `TaskEffects.AllowedExactly` | backend/python-daemon/orchestrator/queue_repo.py:15-20 | a transition is allowed if and only if it leaves a state that is not COMPLETED for another one |
| `TaskEffects.TransitionEffect` | backend/python-daemon/orchestrator/queue_repo.py:215-242 | a transition writes state and revision of one row; each error has its cause and changes nothing |
| `TaskEffects.CompletionEffect` | backend/python-daemon/orchestrator/queue_repo.py:244-270 | a completion writes state, lease and revision of one row and deletes its lease rows; each error has its cause and changes nothing |
| `TaskEffects.CreationEffect` | backend/python-daemon/orchestrator/queue_repo.py:51-85 | a new row has the project, parent and time given and defaults elsewhere; a key error changes nothing |
| `TaskEffects.CreationAddsNothingElse` | backend/python-daemon/orchestrator/queue_repo.py:74-85 | besides the new row a creation adds its parent edge, if it has a parent, and nothing else |
| `TaskEffects.OpeningEffect` | backend/python-daemon/orchestrator/queue_repo.py:332-353 | opening an approval adds one undecided row for the task and parks it if it is PLANNING; otherwise the row stays and the call raises |
| `TaskEffects.ApprovalEffect` | backend/python-daemon/orchestrator/queue_repo.py:355-367 | an approval is entered in exactly the undecided rows of the task, with who decided, whether or not the task then returns to PLANNING |
| `TaskEffects.RefusalEffect` | backend/python-daemon/orchestrator/queue_repo.py:369-381 | a refusal is entered in exactly the undecided rows of the task; on all other tables it is the rejection |
| `TaskEffects.ConstraintEffect` | backend/python-daemon/orchestrator/queue_repo.py:395-411 | a constraint is appended, the reroll counted, the row's lease dropped and its lease row kept, and nothing else |
| `TaskEffects.FailureEffect` | backend/python-daemon/orchestrator/execution_loop.py:42-53 | a handled failure is that, and one dead letter more if and only if the new count is above the limit |
| `TaskApprovals.StepDecidableExactly` | backend/python-daemon/orchestrator/queue_repo.py:332-381 | every call but a bare transition keeps an open approval row for each ACTIVE task in PENDING_APPROVAL; a bare transition does so if and only if there is one for the task it parks |
| `TaskApprovals.DecidableRunsExactly` | backend/python-daemon/orchestrator/queue_repo.py:215-242 | over any run: each ACTIVE task in PENDING_APPROVAL always has an open row if and only if no bare transition parks one without |
| `TaskApprovals.ParkedWithoutApproval` | backend/python-daemon/orchestrator/queue_repo.py:215-242 | a run of two calls, a creation and a bare transition, after which a task waits that nobody can decide about |
| `TaskQuery.QueryStopsWhenWalksAreBounded` | backend/python-daemon/orchestrator/queue_repo.py:314-330 | the UNION ALL recursion ends exactly when the paths from the task are bounded in length, that is when no cycle can be reached |
| `TaskQuery.QueryStopsUnlessSelfParent` | backend/python-daemon/orchestrator/queue_repo.py:314-330 | in every reachable store the recursion for a task ends if and only if the task is not its own parent |
| `TaskQuery.QueryOneRow` | backend/python-daemon/orchestrator/queue_repo.py:314-330 | working off one row adds only edges not found before, so the query returns each edge once |
| `TaskQuery.QueryDone` | backend/python-daemon/orchestrator/queue_repo.py:314-330 | when no row is left, the rows are exactly the edges out of the task and its descendants |
| `QueueRepo.QueueRepository.CreateTask` | backend/python-daemon/orchestrator/queue_repo.py:51-85 | adds the row and the parent edge, or nothing when a key constraint fails; a task may name itself as parent |
| `QueueRepo.QueueRepository.ClaimReadyTask` | backend/python-daemon/orchestrator/queue_repo.py:118-169 | picks an oldest ready task if any is ready, leases it, raises its revision and records the lease; otherwise changes nothing |
| `QueueRepo.QueueRepository.ReleaseExpiredLeases` | backend/python-daemon/orchestrator/queue_repo.py:171-209 | exactly the tasks with expired leases lose them, with the lease rows; returns how many |
| `QueueRepo.QueueRepository.TransitionTaskState` | backend/python-daemon/orchestrator/queue_repo.py:215-242 | moves the state only along an allowed transition from the state the row has, and says which error otherwise |
| `QueueRepo.QueueRepository.SetTaskState` | backend/python-daemon/orchestrator/queue_repo.py:211-213 | a transition from whatever state the row has; a key error when there is no row |
| `QueueRepo.QueueRepository.CompleteTask` | backend/python-daemon/orchestrator/queue_repo.py:244-270 | completes the task and drops its lease and lease rows, subject to the allowed transitions |
| `QueueRepo.QueueRepository.DescendantEdges` | backend/python-daemon/orchestrator/queue_repo.py:314-330 | the recursive query, row by row, ends and returns the reachable edges |
| `QueueRepo.QueueRepository.Descendants` | backend/python-daemon/orchestrator/queue_repo.py:314-330 | query, search and sort together list the descendants once each, parents first; the cycle error is unreachable |
| `QueueRepo.QueueRepository.RejectAndPrune` | backend/python-daemon/orchestrator/queue_repo.py:272-312 | search, sort and one update per row end in the store that the cascade defines, and the result lists all descendants, parents first; an unknown task raises and changes nothing |
| `QueueRepo.QueueRepository.CreateApproval` | backend/python-daemon/orchestrator/queue_repo.py:332-353 | the approval row stays even when the transition to PENDING_APPROVAL is then refused |
| `QueueRepo.QueueRepository.ApproveTask` | backend/python-daemon/orchestrator/queue_repo.py:355-367 | decides the open approvals of the task, then moves it back to PLANNING or raises |
| `QueueRepo.QueueRepository.RejectApproval` | backend/python-daemon/orchestrator/queue_repo.py:369-381 | decides the open approvals of the task, then rejects and prunes |
| `QueueRepo.QueueRepository.UpdateScores` | backend/python-daemon/orchestrator/queue_repo.py:383-393 | changes the scores of that task only, without a new revision |
| `QueueRepo.QueueRepository.AddNegativeConstraint` | backend/python-daemon/orchestrator/queue_repo.py:395-411 | adds the constraint, counts the reroll, drops the lease of the row but not the lease row; returns the new count |
| `QueueRepo.QueueRepository.DeadLetter` | backend/python-daemon/orchestrator/queue_repo.py:413-422 | adds one dead letter and changes nothing else |
| `Worker.ExecutionLoop.HandleValidationFailure` | backend/python-daemon/orchestrator/execution_loop.py:42-53 | rerolls, and dead-letters if and only if the new count is above the limit |
| `Worker.ClaimsFirstIsEnough` | backend/python-daemon/orchestrator/worker.py:49-67 | a history in which each completion is preceded by a claim of that task completes only claimed tasks |
| `Worker.RunsCompose` | backend/python-daemon/orchestrator/worker.py:71-80 | stretches of calls made by successive passes join into one run, with claims still first |
| `Worker.ClaimedTasksHaveFinishedAncestors` | backend/python-daemon/orchestrator/worker.py:49-67 | ancestor safety for every history the worker can produce |
| `Worker.DaemonWorker.RunOnce` | backend/python-daemon/orchestrator/worker.py:45-69 | its calls are exactly the release, the claim and what the payload and the tool's answer lead to, and form a stretch of a run with claims first; it is idle if and only if nothing is ready once expired leases are released; otherwise the task it reports was claimed, is COMPLETED exactly when the report says so, the report says whether the payload could be read and the answer was accepted, and after a rejected answer or a crash the task stays PLANNING and leased to this worker for `lease_seconds`, while otherwise it is unleased |
| `Worker.DaemonWorker.CallsForExactly` | backend/python-daemon/orchestrator/worker.py:54-69 | a pass completes the task it claimed if and only if the payload cannot be read or the tool's answer is accepted, dead-letters it if and only if the payload cannot be read, and hands a failure on if and only if the adapter failed |
| `Worker.DaemonWorker.TakeTask` | backend/python-daemon/orchestrator/worker.py:45-53 | release, then claim: the pick is legal in the store with expired leases released, and a picked task is claimed, PLANNING and leased to this worker for `lease_seconds` |
| `Worker.DaemonWorker.Execute` | backend/python-daemon/orchestrator/worker.py:54-69 | an unreadable payload is dead-lettered and completed, an accepted result completed, an adapter failure handled, anything else left leased; the calls stay a stretch with claims first |
| `Worker.DaemonWorker.SendRound` | backend/python-daemon/orchestrator/worker.py:54-69 | an adapter failure is one handled failure, after which the task is PLANNING and unleased |
| `Worker.DaemonWorker.RunForever` | backend/python-daemon/orchestrator/worker.py:71-80 | the passes, each with its own claim or none, prolong the repository's history by exactly their calls, one pass after the other, to a run in which claims come first, so ancestor safety applies |
| `PatchFiles.ClimbingNeedsDots` | backend/python-daemon/orchestrator/patching/validation.py:92-111 | a relative path without a `..` component resolves inside the repository |
| `PatchFiles.ResolvesToItsPlace` | backend/python-daemon/orchestrator/patching/validation.py:92-111 | a relative path without dots lies in the repository where its components say |
| `PatchFiles.DotsCancel` | backend/python-daemon/orchestrator/patching/validation.py:92-111 | anywhere in a path a single dot says nothing, and two dots take back the component before them |
| `PatchFiles.WrittenExactly` | backend/python-daemon/orchestrator/patching/apply.py:120 | file by file: a write to an affected file takes effect, every other file stays |
| `PatchFiles.RestoreSucceedsExactly` | backend/python-daemon/orchestrator/patching/rollback.py:21-45 | a restore succeeds if and only if every row lies in the repository and has its backup intact |
| `PatchFiles.RestoreNamesCause` | backend/python-daemon/orchestrator/patching/rollback.py:21-45 | each status of a row names what is wrong with it; a row with nothing wrong puts back its file with the recorded content, or its absence |
| `PatchFiles.RestoreStaysOnTargets` | backend/python-daemon/orchestrator/patching/rollback.py:21-45 | whether or not it succeeds, it changes nothing but the targets of its rows |
| `PatchFiles.RestorePutsBack` | backend/python-daemon/orchestrator/patching/rollback.py:21-45 | rows that describe one earlier state put exactly their targets back to it |
| `PatchFiles.ListingOrderIsIrrelevant` | backend/python-daemon/orchestrator/patching/repo.py:312-316 | two listings of the same rows restore the same files |
| `PatchFiles.RestoringTwiceIsRestoringOnce` | backend/python-daemon/orchestrator/patching/rollback.py:21-45 | a second restore changes nothing |
| `PatchFiles.PutBackUndoesExactly` | backend/python-daemon/orchestrator/patching/rollback.py:21-45 | putting the targets back undoes a change completely if and only if it was confined to them |
| `PatchFiles.RollbackUndoesStack` | backend/python-daemon/orchestrator/patching/rollback.py:14-45 | restoring any stack of successful runs newest first, their files overlapping in any way, succeeds and brings back the original files |
| `PatchService.PatchApplyService.Admit` | backend/python-daemon/orchestrator/patching/apply.py:54-86 | past the gate the approval is of this patch and approved, the bytes have the approved hash, and every affected path is safe |
| `PatchService.PatchApplyService.GateNamesCause` | backend/python-daemon/orchestrator/patching/apply.py:54-86 | each refusal has the cause its status names, and the gate opens if and only if there is none |
| `PatchService.PatchApplyService.SnapshotOne` | backend/python-daemon/orchestrator/patching/snapshots.py:35-73 | one row that describes the target as it is now, its backup taken, earlier backups untouched; refused outside the repository |
| `PatchService.PatchApplyService.SnapshotTargets` | backend/python-daemon/orchestrator/patching/snapshots.py:30-74 | on success the rows of the run describe every affected file as it is; on an exception the rows so far remain |
| `PatchService.PatchApplyService.ListFileSnapshots` | backend/python-daemon/orchestrator/patching/repo.py:312-316 | the rows of the run, each once, in an arbitrary order |
| `PatchService.PatchApplyService.Restore` | backend/python-daemon/orchestrator/patching/rollback.py:14-45 | the loop over the rows equals the restore function, stops at the first row that fails and marks the run rolled back only on success |
| `PatchService.PatchApplyService.PrepareRun` | backend/python-daemon/orchestrator/patching/apply.py:91-118 | SNAPSHOTTING to SNAPSHOTTED or SNAPSHOT_FAILED under a new run id, files untouched |
| `PatchService.PatchApplyService.UndoFailedApply` | backend/python-daemon/orchestrator/patching/apply.py:120-131 | after a failed `git apply` that wrote anything to affected files, the files are as before and the status is APPLY_FAILED_ROLLED_BACK |
| `PatchService.PatchApplyService.FinishApply` | backend/python-daemon/orchestrator/patching/apply.py:133-171 | after a successful `git apply` the status is the applied one the declared tests lead to, the row records it, and the files are what apply and the tests, which may write anywhere, have left |
| `PatchService.PatchApplyService.Succeed` | backend/python-daemon/orchestrator/patching/apply.py:133-171 | after a successful `git apply` the applied status is returned, or left behind when the memory commit raises, and is the one the run's row has |
| `PatchService.PatchApplyService.GitApply` | backend/python-daemon/orchestrator/patching/apply.py:120-171 | a failed exit is undone, a successful one booked even if the memory commit then raises, and a timeout escapes with the run still SNAPSHOTTED |
| `PatchService.PatchApplyService.StartRun` | backend/python-daemon/orchestrator/patching/apply.py:91-171 | past the preflight the status follows from snapshots, exit and tests; the files end as before or as applied; a successful run enters the history |
| `PatchService.PatchApplyService.PassGate` | backend/python-daemon/orchestrator/patching/apply.py:87-171 | behind the gate: a failed or cut-off `git apply --check` starts no run and changes nothing, a passed one starts the run on exactly the files that the approved diff affects |
| `PatchService.PatchApplyService.ApplyApprovedPatch` | backend/python-daemon/orchestrator/patching/apply.py:54-171 | all or nothing: with one of the four applied statuses the snapshots cover exactly the files that the approved diff affects, and what `git apply` wrote to them, then what the tests wrote, is in place; with any other status but the SNAPSHOTTED that a timeout leaves behind the files are as before, even when apply wrote some of them; SNAPSHOTTED leaves what apply wrote and a restorable run; APPLY_FAILED_ROLLBACK_FAILED is unreachable; a run is started exactly behind an open gate and a passed check; the status, or the exception, is the one gate, exits and memory commit call for, and the run's row, and no other, records it; once applied it is APPLIED_TESTS_PASSED, APPLIED_TESTS_FAILED, TESTS_BLOCKED or APPLIED exactly as the declared tests pass, fail, are refused or were not declared |
| `PatchService.AnswersExactly` | backend/python-daemon/orchestrator/patching/apply.py:87-171 | which status, returned or left behind, each exit of check, snapshots, apply, tests and memory commit leads to |
| `PatchService.FilesAfterExactly` | backend/python-daemon/orchestrator/patching/apply.py:120-141 | file by file after a call: what the tests wrote, or else what `git apply` wrote to an affected file, or else what was there |
| `PatchService.PatchApplyService.RestoreApplyRun` | backend/python-daemon/orchestrator/patching/rollback.py:14-45 | any run that ever changed the files can be restored at any time, which puts its files back to what they were before it; the newest of the history brings back the whole file map and leaves a history to which the same applies again; a call that changes no file leaves the history alone |
| `PatchUndo.ConfinedExactly` | backend/python-daemon/orchestrator/patching/apply.py:120-141 | a run changes nothing outside its targets if and only if no tests ran or what they wrote elsewhere was there before |
| `PatchUndo.UndoneExactly` | backend/python-daemon/orchestrator/patching/rollback.py:21-45 | restoring rows that describe the files before a run brings these files back if and only if nothing but the targets has changed |
| `PatchUndo.ApplyThenRestore` | backend/python-daemon/orchestrator/patching/rollback.py:14-45 | for every call that took effect, followed by a restore of its run: the restore succeeds, and the files are those from before the call if and only if no tests ran or what they wrote outside the files that the approved diff affects was there before |
| `PatchUndo.UntidyTestsSurviveRollback` | backend/python-daemon/orchestrator/patching/apply.py:136-141 | a run that makes one file and whose tests make another: after the restore the second file is still there |
| `PatchService.PatchApplyService.VerifyRollback` | backend/python-daemon/orchestrator/patching/admin_service.py:47-68 | verified if and only if the run exists, has rows, and each backup is intact; touches nothing |
| `PatchService.VerifiedMeansRestorable` | backend/python-daemon/orchestrator/patching/admin_service.py:47-68 | for rows inside the repository the backups verify if and only if a restore succeeds |
| `PatchService.StopsHere` | backend/python-daemon/orchestrator/patching/rollback.py:21-45 | the first row that cannot be restored decides the status and the files |
| `DiffPaths.BuildDiff` | backend/python-daemon/orchestrator/patching/service.py:71-88 | the text is exactly the header and hunk lines of the files whose line lists differ, each ended once |
| `DiffPaths.HeaderLines` | backend/python-daemon/orchestrator/patching/service.py:71-88 | the two header lines of a file whose line lists differ, with the side that has no text as /dev/null |
| `DiffPaths.HunkLines` | backend/python-daemon/orchestrator/patching/service.py:71-88 | each hunk line carries its mark |
| `DiffPaths.FlattenInOrder` | backend/python-daemon/orchestrator/patching/service.py:71-88 | the files follow each other in the order given |
| `DiffPaths.AffectedPaths` | backend/python-daemon/orchestrator/patching/validation.py:75-90 | the paths named by header-like lines, first occurrences only |
| `DiffPaths.EarlierPathsComeFirst` | backend/python-daemon/orchestrator/patching/validation.py:86-90 | the paths come in the order in which they are first named |
| `DiffPaths.BareNameIsItself` | backend/python-daemon/orchestrator/patching/validation.py:80-85 | a name without `a/` or `b/` stands for itself, without what follows a tab and the white space around it |
| `PythonText.LinesRoundTrip` | backend/python-daemon/orchestrator/patching/validation.py:77 | lines without line breaks, written one per line, are read back as they were |
| `PythonText.LinesPartAtAnyBoundary` | backend/python-daemon/orchestrator/patching/service.py:80-81 | `splitlines` parts a text at every boundary, a carriage return and a line feed together being one |
| `PythonText.StripExactly` | backend/python-daemon/orchestrator/patching/validation.py:80 | `strip` takes off white space at both ends and nothing else |
| `PythonText.SpaceExactly` | backend/python-daemon/orchestrator/ingest/processors.py:75 | the code points that count as white space |
| `PythonText.BreakExactly` | backend/python-daemon/orchestrator/patching/validation.py:77 | the code points that end a line |
| `DiffPaths.HeaderRoundTripsExactly` | backend/python-daemon/orchestrator/patching/validation.py:80-85 | a path survives the header line if and only if it has no tab and does not end in white space |
| `DiffPaths.DisguisedExactly` | backend/python-daemon/orchestrator/patching/validation.py:78 | a hunk line reads as a header if and only if it removes a line beginning `-- ` or adds one beginning `++ ` |
| `DiffPaths.AffectedExactly` | backend/python-daemon/orchestrator/patching/service.py:71-88 | the paths read back from a built diff are duplicate-free and are exactly the files whose line lists differ and those named by changed lines in disguise |
| `DiffPaths.SnapshotCoversTouchedFiles` | backend/python-daemon/orchestrator/patching/service.py:71-88 | every file the patch touches is among the affected paths; without lines in disguise they are exactly those files |
| `DiffPaths.DisguisedLineNamesAnotherFile` | backend/python-daemon/orchestrator/patching/validation.py:77-80 | a patch of one file, removing one line, from which the path of another file is read |
| `IngestIndex.AgreementByScope` | backend/python-daemon/orchestrator/chroma_manager.py:122-155 | agreement of the two stores read off one scope: the same contents under the same ids |
| `IngestAgreement.VectorsStayContained` | backend/python-daemon/orchestrator/ingest/service.py:103-141 | in every history, whatever upserts fail, each vector stems from a chunk that is still stored, with the same content |
| `IngestAgreement.StoresAgree` | backend/python-daemon/orchestrator/ingest/service.py:103-141 | as long as no vector upsert raises, because the store fails or a chunk is blank, the vectors of every scope equal its chunk rows after every call |
| `IngestAgreement.TwoRebuildsRestore` | backend/python-daemon/orchestrator/ingest/service.py:162-168 | two successful rebuilds with nothing in between restore agreement for a project with chunks |
| `IngestAgreement.TwoAttemptsRestoreExactly` | backend/python-daemon/orchestrator/chroma_manager.py:85-88 | two rebuilds while the vector store works restore agreement if and only if no chunk of the project is blank, for which embedding raises |
| `IngestAgreement.BlankChunksNeverAgree` | backend/python-daemon/orchestrator/chroma_manager.py:85-88 | at no moment of any history does a project with a blank chunk agree |
| `IngestAgreement.OneRebuildRestoresExactly` | backend/python-daemon/orchestrator/queue_repo.py:609-651 | one successful rebuild restores agreement if and only if no chunk belongs to a failed run or every chunk without a vector does |
| `IngestAgreement.FullProjectAgrees` | backend/python-daemon/orchestrator/queue_repo.py:583-607 | a contained scope agrees if and only if each chunk of the project has its vector |
| `IngestManifest.HistoriesAreRooted` | backend/python-daemon/orchestrator/queue_repo.py:530-564 | in every history chunks are stored under their own key and under a run of their own project |
| `IngestManifest.ForceClearsExactly` | backend/python-daemon/orchestrator/ingest/service.py:119-121 | a forced file is cleared of every chunk and vector, and in no history does clearing a file without a manifest row remove anything |
| `IngestManifest.RecoveryFromAnyHistory` | backend/python-daemon/orchestrator/ingest/service.py:135-168 | at every moment of every history, faults included, two rebuilds made while the vector store works restore a project that has chunks if and only if none of its chunks is blank |
| `IngestIsolation.RebuildReconcilesExactly` | backend/python-daemon/orchestrator/queue_repo.py:637-651 | run by run: a rebuild makes the FAILED and FAILED_VECTOR_UPSERT runs of its project RECONCILED and leaves every other run as it was |
| `IngestIsolation.SelectedExactly` | backend/python-daemon/orchestrator/queue_repo.py:583-635 | a rebuild selects the project's chunks of failed runs, or all its chunks when there are none of these |
| `IngestIsolation.RebuildStoresExactly` | backend/python-daemon/orchestrator/ingest/service.py:162-168 | a rebuild gives vectors to the selected chunks and keeps all other vectors, all chunks and all files |
| `IngestIsolation.OtherProjectsStay` | backend/python-daemon/orchestrator/queue_repo.py:432-651 | over any stretch of any history without a call for a project its manifest rows, chunks, vectors and runs, and what its next rebuild would select, stay as they were |
| `IngestIsolation.RunEndsExactly` | backend/python-daemon/orchestrator/ingest/service.py:142-157 | the state a call's run ends in, read off the fault and the newest run of the project; every other run is as it was |
| `IngestCounts.CallCounts` | backend/python-daemon/orchestrator/ingest/service.py:116-143 | for files with distinct paths, a call without a fault reports exactly the files the manifest had with their content, and the chunks of all others |
| `IngestCounts.RemovedAreTheVanished` | backend/python-daemon/orchestrator/ingest/service.py:105-110 | a directory call drops exactly the manifest rows of the scope whose files are gone, and the count it reports is the number of those rows |
| `IngestManifest.FileEffect` | backend/python-daemon/orchestrator/ingest/service.py:110-134 | what handling one file does to the manifest row and the chunks of this and of any other file |
| `IngestManifest.FileFaithfulExactly` | backend/python-daemon/orchestrator/ingest/service.py:119-126 | after a file is handled its manifest row describes its chunks unless it already had a row and its new content yields no chunks or cannot be processed; no other file is affected |
| `IngestManifest.ManifestIsFaithful` | backend/python-daemon/orchestrator/ingest/service.py:103-141 | while every file met yields chunks, each manifest row's chunks are exactly the chunks of the content it records, whatever upserts or metadata reads fail |
| `IngestManifest.DirectoryManifestExactly` | backend/python-daemon/orchestrator/ingest/service.py:103-109 | after a directory ingest without a fault the scope's manifest holds exactly the directory's files, save new ones without chunks |
| `IngestCounterexample.OneRebuildMayNotSuffice` | backend/python-daemon/orchestrator/queue_repo.py:432-443 | for any two files with chunks, a three-call history after which one successful rebuild leaves the stores different; it does succeed when the second file has no blank chunk |
| `IngestCounterexample.ReturningContentStaysWithoutChunks` | backend/python-daemon/orchestrator/ingest/service.py:119-124 | for any file and two contents, one with chunks and one without: after ingesting the first, the second and the first again the manifest records the first and no chunk is stored |
| `IngestCounterexample.FailureMayStayRunning` | backend/python-daemon/orchestrator/ingest/service.py:146-150 | two calls that start at the same time, after which the run of the one whose metadata could not be read is RUNNING for good |
| `IngestCounterexample.BlankWindow` | backend/python-daemon/orchestrator/ingest/processors.py:74-101 | for every adapter with a non-negative overlap, a letter and enough white space: the text is not blank, its second chunk is |
| `IngestCounterexample.BlankWindowBlocksRebuilds` | backend/python-daemon/orchestrator/ingest/service.py:128-168 | after ingesting such a file every rebuild raises and changes nothing, and the stores differ, although the vector store never failed |
| `IngestService.IngestTargetService.RemoveStale` | backend/python-daemon/orchestrator/ingest/service.py:103-109 | the loop over vanished files removes exactly their manifests, chunks and vectors, and counts them |
| `IngestService.IngestTargetService.UpsertChunks` | backend/python-daemon/orchestrator/chroma_manager.py:122-155 | raises, and stores nothing, exactly for an empty list, a blank content or a failing store; otherwise the given chunks and no others become vectors with their contents |
| `IngestIndex.IdsAreOfChunks` | backend/python-daemon/orchestrator/ingest/service.py:222-230 | the id of a chunk is made of its scope, its path, its index, its processor and its content |
| `IngestService.IngestTargetService.HandleFile` | backend/python-daemon/orchestrator/ingest/service.py:110-134 | one iteration: skip, delete, slice, record, upsert, in that order, each with its failure |
| `IngestService.IngestTargetService.StoreRows` | backend/python-daemon/orchestrator/ingest/service.py:128-140 | manifest and chunk rows first, then the vectors, which are left out when the upsert raises |
| `IngestService.IngestTargetService.HandleFiles` | backend/python-daemon/orchestrator/ingest/service.py:110-140 | the loop over the files equals the fold of its iterations, left at the first fault |
| `IngestService.IngestTargetService.IngestTarget` | backend/python-daemon/orchestrator/ingest/service.py:87-157 | loops and handlers together step the index as the specification of a call says, with the reported counts |
| `IngestService.IngestTargetService.Recover` | backend/python-daemon/orchestrator/ingest/service.py:142-157 | a vector failure keeps its own run state unless the latest run of the project says otherwise |
| `IngestService.IngestTargetService.LatestRun` | backend/python-daemon/orchestrator/queue_repo.py:457-472 | a run of the project with the latest start, ties broken arbitrarily |
| `IngestService.IngestTargetService.RebuildChromaForProject` | backend/python-daemon/orchestrator/ingest/service.py:162-168 | upserts the chunks of failed runs, or all chunks when there are none, and then reconciles the failed runs; when there is no chunk, a blank one or a failing store it raises and changes nothing |
| `TextChunks.AcceptedSizesPassAnyText` | backend/python-daemon/orchestrator/ingest/processors.py:61-65 | the constructor accepts just the sizes whose windows move on until they have passed the end of any text |
| `TextChunks.ProcessText` | backend/python-daemon/orchestrator/ingest/processors.py:74-101 | for any adapter the constructor lets pass: a blank text has no chunks; otherwise the chunks are the windows, as Python slices them, that start inside the text and, after the first, are longer than the overlap, all of them in order |
| `TextChunks.SliceExactly` | backend/python-daemon/orchestrator/ingest/processors.py:81-82 | which characters a slice holds, its end counted from the back when it is negative |
| `TextChunks.ChunkingLosesNothing` | backend/python-daemon/orchestrator/ingest/processors.py:74-101 | for a non-negative overlap the first chunk followed by each later one without its overlap is the text, every later chunk adds a character, and there are 1 or 1 + ceil((n - size) / (size - overlap)) of them |
| `TextChunks.CoverageExactly` | backend/python-daemon/orchestrator/ingest/processors.py:61-101 | with the negative overlaps and chunks the constructor also accepts, every character is in some chunk if and only if the overlap is not negative or one chunk holds the text |
| `TextChunks.NegativeOverlapDropsACharacter` | backend/python-daemon/orchestrator/ingest/processors.py:61-101 | with chunks of two and an overlap of minus one, which the constructor accepts, the last of three characters is in no chunk |
| `Templates.NothingFoundMeansNoReference` | backend/python-daemon/orchestrator/pipeline/compiler.py:127-137 | the scan for `${name}` finds nothing if and only if no position begins a reference |
| `PipelineMeaning.ReferenceExactly` | backend/python-daemon/orchestrator/pipeline/compiler.py:10 | a text begins with a reference to a name if and only if it begins with `${name}` and the name is a letter or underscore followed by letters, underscores and digits |
| `PipelineMeaning.SubstituteFills` | backend/python-daemon/orchestrator/pipeline/compiler.py:139-156 | for every text, cut into its references and the characters between them: resolved, each name bound at run time has that value, any other bound name its declared one, and everything else is kept |
| `PipelineMeaning.CutText` | backend/python-daemon/orchestrator/pipeline/compiler.py:139-156 | every text can be cut so |
| `Templates.SubstituteFixed` | backend/python-daemon/orchestrator/pipeline/compiler.py:139-156 | a string without references is left alone, whatever the variables |
| `Templates.BoundDollarsDisappear` | backend/python-daemon/orchestrator/pipeline/compiler.py:139-156 | if every `$` begins a bound reference and values are `$`-free, so is the result |
| `Templates.NothingUnresolvedMeansClosed` | backend/python-daemon/orchestrator/pipeline/compiler.py:127-137 | nothing is collected as unresolved if and only if no string reached through nested dicts holds a reference |
| `Templates.ResolveIsFixed` | backend/python-daemon/orchestrator/pipeline/compiler.py:139-156 | an argument without unresolved references is unchanged by resolving it under any variables |
| `Templates.FixedExactly` | backend/python-daemon/orchestrator/pipeline/compiler.py:139-156 | an argument withstands all variables exactly when no reference is left in it |
| `Templates.WellBoundResolves` | backend/python-daemon/orchestrator/pipeline/compiler.py:139-156 | the converse: well-bound templates with `$`-free values leave nothing unresolved |
| `Templates.SerializedBindings` | backend/python-daemon/orchestrator/pipeline/compiler.py:158-168 | the runner takes a serialized argument for a binding exactly when it was one or was a dict that looks like one |
| `Templates.SerializedClosedExactly` | backend/python-daemon/orchestrator/pipeline/compiler.py:158-168 | a serialized argument is free of references exactly when the argument is and the texts of its bindings are |
| `PipelineCompiler.PipelineCompiler.Validate` | backend/python-daemon/orchestrator/pipeline/compiler.py:63-81 | passes exactly the definitions with steps, within the limit, of distinct ids, known dependencies and allowed tools, and says which check fails and for which step |
| `PipelineCompiler.PipelineCompiler.TopologicalOrder` | backend/python-daemon/orchestrator/pipeline/compiler.py:115-125 | the cycle error if and only if the dependency graph has a cycle; otherwise a permutation of the steps with every dependency earlier |
| `PipelineCompiler.LookupOrders` | backend/python-daemon/orchestrator/pipeline/compiler.py:115-125 | looking sorted ids up in the step map loses and repeats no step |
| `PipelineCompiler.PipelineCompiler.ValidateBinding` | backend/python-daemon/orchestrator/pipeline/compiler.py:91-113 | on a sorted definition its four checks together accept exactly the sources in `depends_on`, and the error tells itself, unknown and later sources apart |
| `PipelineCompiler.PipelineCompiler.ValidateBindings` | backend/python-daemon/orchestrator/pipeline/compiler.py:83-113 | accepts if and only if every top-level binding's source is a declared dependency |
| `PipelineCompiler.PipelineCompiler.Compile` | backend/python-daemon/orchestrator/pipeline/compiler.py:23-54 | succeeds on exactly the compilable definitions with a plan in dependency order; each kind of error exactly when its cause is the first: cyclic, an undeclared binding, an unresolved reference |
| `PipelineMeaning.PlanSaysDefinition` | backend/python-daemon/orchestrator/pipeline/compiler.py:23-54 | each todo of a plan has its step's id and tool and, at every depth of its arguments, what the step's template says with its variables filled in |
| `PipelineMeaning.TextArgumentIsFilled` | backend/python-daemon/orchestrator/pipeline/compiler.py:33-47 | an argument whose template is a text is that text with each variable filled in, the run-time value before the declared one |
| `PipelineMeaning.PlanKeepsLimits` | backend/python-daemon/orchestrator/pipeline/compiler.py:63-81 | a compiled plan has one todo per step, no more than allowed, distinct ids, only allowed tools, and each dependency earlier |
| `PipelineCompiler.PlanArgumentsAreClosed` | backend/python-daemon/orchestrator/pipeline/compiler.py:33-47 | an argument of a compiled plan, as serialized, is free of references, and resolving it under any variables changes nothing, exactly when the bindings of its template, nested dicts included, name step and path without references |
| `PipelineCompiler.BindingPathKeepsReference` | backend/python-daemon/orchestrator/pipeline/compiler.py:127-137 | for any path with a reference, a two-step definition that compiles and whose plan holds that reference and changes under some variables |
| `WorkflowRunner.CompiledBindingsCannotDangle` | backend/python-daemon/orchestrator/agent_workflow/runner.py:287-329 | for every compiled plan and every sequence of tool responses, when the runner reaches a step the source of each of its bindings has run before with success; a binding that is resolved is looked up in that output, so only a missing key can fail it |
| `WorkflowMeaning.BoundArgumentIsTheValue` | backend/python-daemon/orchestrator/agent_workflow/runner.py:299-326 | when a step of a compiled plan calls its tool, an argument bound to `artifacts.x` or `error.x` of a step is exactly that entry of the output of that step |
| `WorkflowMeaning.OtherArgumentsPass` | backend/python-daemon/orchestrator/agent_workflow/runner.py:307-329 | a tool is called with the keys of the plan, and with the plan's own argument wherever that is no binding |
| `WorkflowMeaning.LookUpExactly` | backend/python-daemon/orchestrator/agent_workflow/runner.py:298-305 | a path names an entry of the artifacts or of the error of an output by what stands before its first dot, and nothing otherwise |
| `WorkflowMeaning.StepOutcome` | backend/python-daemon/orchestrator/agent_workflow/runner.py:134-157 | a tool is called if and only if every argument that looks like a binding can be resolved; its answer is the step's output, its exception an ERROR with code `tool_execution_failed` and at most 2000 characters of the text, and a step that is not called ends as POLICY_BLOCK with code `binding_resolution_failed` or, for a malformed binding, as such an ERROR |
| `WorkflowRunner.OnlyDeclaredBindingsResolve` | backend/python-daemon/orchestrator/agent_workflow/runner.py:307-329 | without literal dicts in disguise the runner resolves exactly the bindings of the definition |
| `WorkflowRunner.MissingStepIsUnreachable` | backend/python-daemon/orchestrator/agent_workflow/runner.py:287-305 | a compiled run without such dicts never takes the missing-step branch |
| `WorkflowRunner.MissingStepExactly` | backend/python-daemon/orchestrator/agent_workflow/runner.py:287-305 | for any plan, the branch is taken if and only if no earlier step of the plan has the name the argument asks for |
| `WorkflowRunner.DisguisedBindingDangles` | backend/python-daemon/orchestrator/agent_workflow/runner.py:283-285 | a literal dict dressed up as a binding passes `compile` and takes the missing-step branch |
| `WorkflowRunner.FirstArtifactWins` | backend/python-daemon/orchestrator/agent_workflow/runner.py:493-496 | over the step loop an initial artifact stays; otherwise the first step to produce a key decides its value |
| `WorkflowRunner.Runner.ResolveArgs` | backend/python-daemon/orchestrator/agent_workflow/runner.py:307-329 | fails exactly on a malformed binding; otherwise found bindings are replaced and everything else kept |
| `WorkflowRunner.Runner.RunStep` | backend/python-daemon/orchestrator/agent_workflow/runner.py:129-165 | one step prolongs the trace by the record its todo, outputs and response determine, and updates its status and the artifacts |
| `WorkflowRunner.Runner.Run` | backend/python-daemon/orchestrator/agent_workflow/runner.py:109-222 | the records form a trace of the plan that stops at the first failure or at the step that hands off; it is complete if and only if every step run succeeded, otherwise it returns the status of its last step and one more error; the artifacts of a failed run are those of the trace, and a completed run overwrites them, in the runner's order, with analysis, snapshot and memory, binding trace, receipt and report |
| `WorkflowMeaning.RunStopsExactly` | backend/python-daemon/orchestrator/agent_workflow/runner.py:129-205 | a run stops after its last step, at the first that fails or at the tool that hands off, and not before |
| `WorkflowMeaning.AttachmentsLand` | backend/python-daemon/orchestrator/agent_workflow/runner.py:501-576 | analysis, snapshot and memory result stand under their own keys, and nothing is put there without them |
| `WorkflowMeaning.AccountNamesEveryStep` | backend/python-daemon/orchestrator/agent_workflow/runner.py:331-340 | the binding trace lists every step that ran with exactly the keys it produced, and the receipt counts the steps planned and those that did not fail |
| `WorkflowMeaning.RunsOpenWithPlan` | backend/python-daemon/orchestrator/agent_workflow/runner.py:110-111 | before the first step the artifacts name the pipeline and the number of steps planned |

## Left out

- QueueRepo.QueueRepository.RejectAndPrune: requires a task that is not its own parent, since the recursive query for one that is does not end.
- QueueRepo.QueueRepository.RejectApproval: the same requirement as `RejectAndPrune`.
- QueueRepo.QueueRepository.DescendantEdges: says which edges the query returns, not in which order, which the search and the sort do not depend on.
- Graphlib.TopologicalSorter.StaticOrder: a cycle is recognised by the nodes left over rather than by a separate search, so the text of the error, which lists the cycle, is not modelled; `graphlib` itself is not part of the repository.
- PatchService.PatchApplyService.ApplyApprovedPatch: does not model symlinks, files edited by others between calls, or what `git apply` writes for renames and changes of mode.
- PatchService.PatchApplyService.Admit: the diff parser is a parameter here; `DiffPaths` models the reading of header lines.
- IngestService.IngestTargetService.IngestTarget: deletes in the vector store succeed and `mime_type` is unset; processors are one function from path and content to chunks or a failure.
- IngestIndex.AgreementByScope: the numbers of an embedding are not modelled; that a blank text has none is, and any other embedding that fails counts as a failing store.
- WorkflowRunner.Runner.Run: phases between the first and the last are overwritten before the call returns and are not observable in its contract; truncation of long tool results, artifacts whose value is null, the list of references in a receipt exceptions of report writers, and the wording of messages about bindings are not modelled.
- WorkflowRunner.CompiledBindingsCannotDangle: covers top-level arguments, as neither the compiler's check nor the runner's resolver looks below them.
- Worker.DaemonWorker.RunOnce: the outcome of the tool and of validation is a parameter, and heartbeats and worker rows are left out.
- DiffPaths.BuildDiff: the ranges and the choice of context in hunks are left to `difflib`; each hunk line is some line of the old or the new text.
- Interleaving of two processes inside `reject_and_prune`, and crashes between commits to the two databases.
- The path containment check on backups: the model's backups are a separate map that only snapshots write.
- Task events, record listings, worker status, report builders, artifact writers and what the memory commit after an apply stores: they add rows that nothing here reads back.
- Approval signatures, nonces, policy tables, the bridge, the MCP shim and the command line.
- PDF pages, the syntax-tree slicer, OCR and file-system scanning.
- Candidate and skill scoring, beyond storing the scores of a task.
