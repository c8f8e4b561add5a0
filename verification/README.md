# Verified model of the startup workspace service

The service keeps, for each startup, a roadmap (phases, milestones, tasks and task
dependencies) with an automatic re-planner, a background job queue fed by a scheduler, an
adaptive questionnaire with a scorer, daily missions with a streak, a course catalogue with
certificates, health-score recommendations, signature requests, refresh-token sessions and
paged listings. This project models the state those parts keep in their tables and proves
what every run of their operations preserves.

Each operation is a method on a class whose fields are the tables, or a free method where
the service only reads. Its contract gives the whole new state as a function of the old one,
and says in terms of the rows what was written; lemmas prove what that function means. Where several callers race, the atomic update, the
unique key or the row lock the service relies on is one step, the read before it is another,
and the theorems quantify over every interleaving of such steps. The current day and time are
parameters; dates and moments are integers.

| file | what it covers |
|---|---|
| `Basics.dfy` | option and result types, rounding half to even, percentages, small facts on sets and maps |
| `Graphs.dfy` | reachability and acyclicity of finite edge sets |
| `Dependencies.dfy` | the iterative search that guards task dependencies |
| `RoadmapTables.dfy` | the roadmap rows, every editing request, and the invariants they keep |
| `RoadmapIsolation.dfy` | no request touches another roadmap's rows |
| `TopoSort.dfy` | the recursive sort of milestones with its back-edge guard |
| `Replan.dfy` | drift, slips, their cascade, proposals, and what applying them achieves |
| `RoadmapStore.dfy` | the request handlers over the roadmap tables, and whole runs of requests |
| `JobQueue.dfy` | reap, claim, run, retry and backoff as one worker performs them |
| `WorkerProtocol.dfy` | many workers, crashes and passing time over one job table |
| `Scheduler.dfy` | detectors, the once-per-period ledger, many workers ticking |
| `Questionnaire.dfy` | the condition language, the next-question walk, the scorer |
| `AssessmentRun.dfy` | an assessment from start to completion with racing completers |
| `Paging.dfy` | keyset pages against the full sorted listing, and the cursor codec |
| `Sessions.dfy` | refresh-token families, rotation and reuse detection (section 4.14.2 of RFC 9700) |
| `Missions.dfy` | mission generation, task actions, completion, streak |
| `Learning.dfy` | enrolment, lesson completion, course percentage, certificates |
| `Recommendations.dfy` | candidate ranking, reconcile, accept and dismiss |
| `Signatures.dfy` | signature requests and their tokens |

## What turned out to need care

- Two milestones whose tasks point both ways make the milestone graph cyclic although the task
  graph is acyclic; three requests on the empty tables get there
  (`RoadmapStore.AcyclicTasksCyclicMilestones`). The re-planner then still settles the roadmap, but
  the gap along an edge is safe from everything `compute_replan` returns, applied whole, if and only
  if the edge lies on no cycle (`Replan.GapIsSafeIffNoCycle`): when the upstream is the only late
  milestone and the milestones are iterated from it on, it moves and the downstream does not
  (`Replan.CycleCanNarrowAGap`). `RoadmapStore.ReplanCanReverseDates` is a run in which this puts a
  milestone before the one it waits for.
- A held job is its holder's alone throughout a run if and only if no reap finds a worker past the
  stale window (`WorkerProtocol.ExclusiveIffTimely`). From any world with a late worker one reap and
  one claim give the job a second holder, and only then (`WorkerProtocol.ReclaimableIffLate`); a
  success can then be undone (`WorkerProtocol.OverrunUndoesSuccess`), and since a late worker
  counts with the attempts it loaded, a retry can come before its delay
  (`WorkerProtocol.OverrunCutsTheWait`). The bound on attempts survives all of this
  (`WorkerProtocol.AttemptsAreBounded`).
- A course reads 100 per cent exactly when at most one lesson in two hundred is missing
  (`Learning.FullExactlyWhen`), so "100 means all lessons" holds of a course if and only if it
  has fewer than 200 (`Learning.HundredMeansAllIffUnderTwoHundred`).
- A finished mission is always marked complete, but complete does not mean nothing open:
  `Missions.CompleteMissionReopens` is a run that ends with a complete mission and an open task.
  `Missions.StaysFinishedIff` says when it happens: exactly when a custom task is added to the
  mission, one of its tasks is snoozed, or its only done task is rejected.
- A better answer on a scale never lowers a score unless some condition of the bank looks at it
  (`Questionnaire.HigherScaleNeverLowers`); then it can bring in a question that is answered badly
  (`Questionnaire.HigherScaleCanLower`).
- The docstring of `_maybe_complete_mission` (app/services/mission/service.py:328-334) speaks of the
  streak crossing a milestone. The code announces the milestone the streak stands at, and tasks of
  earlier days can still be finished (app/api/v1/endpoints/mission.py:66-77).
  `Missions.AnnouncedWithoutCrossingIff` says when the streak did not grow, and
  `Missions.MilestoneAnnouncedTwice` gives for each milestone a run that announces it twice in a row.

## Model

| member | source | states |
|---|---|---|
| Basics.RoundDivIsNearestEven | app/services/roadmap/service.py:181 | the rounding used for every percentage is the one nearest integer, exact halves going to the even neighbour |
| Basics.PercentIsFullIff | app/services/learning/service.py:85 | a rounded percentage is 100 exactly when 200 times the missing part is at most the whole |
| Basics.PercentMonotone | app/services/learning/service.py:70-85 | a larger part never gives a smaller percentage, and none exceeds 100 |
| Graphs.NewEdgeClosesLoopIff | app/services/roadmap/dependencies.py:34-36 | adding an edge to an acyclic graph keeps it acyclic exactly when its head does not already reach its tail |
| Graphs.FewerEdgesStayAcyclic | app/api/v1/endpoints/roadmap.py:612-630 | deleting edges never creates a cycle |
| Dependencies.DependencyMap | app/services/roadmap/dependencies.py:24-28 | the adjacency lists stand for exactly the given rows, whatever order they arrive in |
| Dependencies.WouldCreateCycle | app/services/roadmap/dependencies.py:31-48 | the iterative search ends and answers true exactly when the dependency reaches the task |
| RoadmapTables.RecomputeRestores | app/services/roadmap/service.py:175-181 | recomputing the one milestone whose row or tasks changed makes every stored progress current again |
| RoadmapTables.TemplateOnlyAppends | app/services/roadmap/service.py:121-172 | laying a template on a roadmap leaves every old row as it was and adds exactly the template's phases, milestones and tasks |
| RoadmapTables.TemplateIsLaidOut | app/services/roadmap/service.py:67-99 | every milestone of a template gets a row of its own in that roadmap, due 7 days per week from today, with its number of tasks, all to do, and progress 0 |
| RoadmapTables.TemplateKeeps | app/services/roadmap/service.py:67-99 | laying a template keeps foreign keys, acyclic dependencies and current progress |
| RoadmapTables.GenerateKeeps | app/services/roadmap/service.py:29-113 | create-once generation keeps all invariants |
| RoadmapTables.ApplyTemplateKeeps | app/api/v1/endpoints/roadmap.py:330-364 | applying a gallery template keeps all invariants |
| RoadmapTables.AddMilestoneKeeps | app/api/v1/endpoints/roadmap.py:434-448 | a new milestone, also one created as done, has current progress and keeps all invariants |
| RoadmapTables.AddTaskKeeps | app/api/v1/endpoints/roadmap.py:524-537 | adding a task and recomputing its milestone keeps all invariants |
| RoadmapTables.UpdateMilestoneKeeps | app/api/v1/endpoints/roadmap.py:452-493 | changing a milestone's date or status and recomputing it keeps all invariants |
| RoadmapTables.UpdateTaskKeeps | app/api/v1/endpoints/roadmap.py:541-558 | changing a task's status and recomputing its milestone keeps all invariants |
| RoadmapTables.DeleteTaskKeeps | app/api/v1/endpoints/roadmap.py:562-575 | deleting a task with its dependency rows and recomputing keeps all invariants |
| RoadmapTables.RemoveMilestonesKeeps | app/api/v1/endpoints/roadmap.py:497-507 | deleting milestones with everything below them keeps all invariants |
| RoadmapTables.AddPhaseKeeps | app/api/v1/endpoints/roadmap.py:380-388 | a new phase keeps all invariants |
| RoadmapTables.RemovePhaseKeeps | app/api/v1/endpoints/roadmap.py:407-417 | deleting a phase with everything below it keeps all invariants |
| RoadmapTables.ReachStaysInRoadmap | app/services/roadmap/dependencies.py:11-21 | searching only the caller's roadmap finds exactly what the whole dependency table reaches from its tasks |
| RoadmapTables.CreateDependencyKeeps | app/api/v1/endpoints/roadmap.py:579-607 | an accepted dependency keeps all invariants |
| RoadmapTables.DeleteDependencyKeeps | app/api/v1/endpoints/roadmap.py:612-630 | deleting a dependency keeps all invariants |
| RoadmapTables.ReAddingIsNeverALoop | app/services/roadmap/dependencies.py:51-64 | asking for an existing dependency again is accepted and changes nothing |
| RoadmapTables.GuardIsExact | app/api/v1/endpoints/roadmap.py:597-606 | between two tasks of the roadmap a dependency is refused exactly when storing it would make the table cyclic |
| RoadmapTables.PerformKeepsSound | app/api/v1/endpoints/roadmap.py:329-630 | every editing request, accepted or refused, keeps foreign keys, dependencies inside one roadmap, acyclicity and current progress |
| RoadmapIsolation.OthersStayUntouched | app/api/v1/endpoints/roadmap.py:84-175 | whoever calls, no request adds, changes or removes a phase, milestone, task or dependency row of another roadmap |
| TopoSort.SortedIsUpstreamOrder | app/services/roadmap/replan.py:73-90 | on any graph, and for every order in which nodes and predecessor sets are iterated, the list holds each reached node once and upstreams first, except for edges that close a cycle |
| TopoSort.VisitKeeps | app/services/roadmap/replan.py:77-86 | a visit only appends, appends nothing its node does not reach and nothing being visited, ends with its node, and keeps the list upstream-first except for edges that close a cycle |
| TopoSort.FirstComesAfterItsUpstream | app/services/roadmap/replan.py:77-90 | on any graph everything the first node reaches stands before it |
| TopoSort.Sorter.Visit | app/services/roadmap/replan.py:77-86 | the nested visit with its shared list, set and stack ends on any graph, restores the stack, and does what the recursive specification says |
| TopoSort.Toposort | app/services/roadmap/replan.py:73-90 | the result is the specified list for the order in which the predecessor sets happened to be iterated, hence upstream-first except for edges that close a cycle |
| TopoSort.LateUpstreamIsOnACycle | app/services/roadmap/replan.py:77-79 | an upstream listed after its downstream lies on a common cycle with it |
| TopoSort.AcyclicMeansTopological | app/services/roadmap/replan.py:90 | on an acyclic graph the result is a topological order |
| TopoSort.ListsExactlyTheNodes | app/services/roadmap/replan.py:88-90 | with predecessors among the nodes, the result is a permutation of the nodes |
| Replan.SlipTravelsDown | app/services/roadmap/replan.py:107-117 | on any graph a slip reaches the end of every path that no cycle touches |
| Replan.ShiftIsLargestUpstreamSlip | app/services/roadmap/replan.py:105-117 | on an acyclic graph each shift is the largest base slip of the milestone and everything upstream of it |
| Replan.AcyclicCascadeIsUnique | app/services/roadmap/replan.py:105-117 | on an acyclic graph the shifts do not depend on any iteration order |
| Replan.ApplyingAllIsAFixpoint | app/services/roadmap/replan.py:93-169 | after applying a whole proposal nothing is late and the only further proposal for that day is the empty one, on any graph |
| Replan.Drift | app/services/roadmap/replan.py:43-49 | a milestone has drifted exactly when it has a date before today and is not done |
| Replan.ProposalMovesOnlyTheLate | app/services/roadmap/replan.py:97-144 | every change moves by exactly the days that the milestone or something it waits for, being dated before today and not done, needs to reach a week from today; every such milestone is moved at least that far; and each reason names the true overdue days, shift and dependency |
| Replan.GapNeverShrinks | app/services/roadmap/replan.py:119-169 | applying a whole proposal never narrows the gap along a precedence edge that lies on no cycle |
| Replan.UpstreamMovesLessIffNoCycle | app/services/roadmap/replan.py:105-117 | along an edge the upstream moves no further than the downstream in every cascade if and only if the edge lies on no cycle |
| Replan.MayReturnIsProposal | app/services/roadmap/replan.py:93-144 | whatever is returned, for any order of iteration, is a proposal of the cascade specification |
| Replan.SomethingIsReturned | app/services/roadmap/replan.py:93-144 | for every order of the milestones and of their predecessor sets there are changes that may be returned |
| Replan.GapIsSafeIffNoCycle | app/services/roadmap/replan.py:93-169 | the gap along an edge is kept by everything that may be returned for those milestones, applied whole, whatever their dates and the day, if and only if the edge lies on no cycle |
| Replan.CycleNarrowsTheGap | app/services/roadmap/replan.py:93-169 | whatever is returned when the only late milestone comes first in the iteration, applied whole, moves that milestone by its slip and nothing that it reaches |
| Replan.CycleCanNarrowAGap | app/services/roadmap/replan.py:93-169 | for every edge on a cycle whose upstream alone is late, changes may be returned that, applied whole, move the upstream by its slip and the downstream not at all |
| Replan.LargestShift | app/services/roadmap/replan.py:108-115 | the larger of the own slip and the shifts predecessors already have, with the predecessor that supplied it |
| Replan.Propagate | app/services/roadmap/replan.py:105-117 | every milestone of the order takes the largest shift available when its turn comes |
| Replan.PropagationCascades | app/services/roadmap/replan.py:105-117 | shifts filled in along an upstream-first order are at least the own slip, equal some upstream slip, and grow downstream except along cycles |
| Replan.ChangeFor | app/services/roadmap/replan.py:124-143 | the change moves the date by the shift, and its reason names the true overdue days and the milestone that drove the shift |
| Replan.ListChanges | app/services/roadmap/replan.py:119-144 | the loop collects the change of every dated milestone that moves, in sorted order |
| Replan.ChangesListShifts | app/services/roadmap/replan.py:119-144 | these are one change for every dated milestone with a positive shift, no other, none twice, each with a true reason |
| Replan.ComputeReplan | app/services/roadmap/replan.py:93-144 | the changes are those some order of iteration returns, a proposal of the cascade specification, and move only what is late by its row or waits for it |
| RoadmapStore.EveryRunIsSound | app/services/roadmap/service.py:175-181 | in every state any run of requests reaches, foreign keys hold, dependencies form no loop, and each stored progress equals its recomputation |
| RoadmapStore.ProgressIsTheDoneShare | app/services/roadmap/service.py:175-181 | in every run each stored progress is the percentage of the milestone's tasks whose status is done, rounded to nearest with ties to even; without tasks, 100 if the milestone is done and 0 otherwise |
| RoadmapStore.PrecedenceFollowsTasks | app/services/roadmap/replan.py:52-70 | a milestone is upstream of another exactly when a task of the other depends on one of its tasks, both in the roadmap |
| RoadmapStore.ReplanKeepsSound | app/services/roadmap/replan.py:147-208 | applying any part of a proposal keeps all invariants |
| RoadmapStore.ReplanKeepsPrecedence | app/services/roadmap/replan.py:164-169 | re-planning changes no precedence edge |
| RoadmapStore.ReplanWritesTheChosen | app/services/roadmap/replan.py:147-169 | exactly the requested milestones that the proposal names get its date and the note of when and why; every other row stays |
| RoadmapStore.RequestIsSplit | app/services/roadmap/replan.py:150-170 | the requested ids are split into those that name a change and those that do not |
| RoadmapStore.HistoryMatchesChosen | app/services/roadmap/replan.py:171-190 | the history lists the change of each applied id, in the same order |
| RoadmapStore.ReplanStaysInside | app/services/roadmap/replan.py:147-169 | re-planning touches no row of another roadmap |
| RoadmapStore.ReplanAllSettles | app/services/roadmap/replan.py:147-208 | accepting every proposed change leaves the tables with no drift and nothing to propose for that day |
| RoadmapStore.PrecedenceStaysInside | app/services/roadmap/replan.py:52-70 | predecessors of a roadmap's milestones are milestones of that roadmap |
| RoadmapStore.AcyclicTasksCyclicMilestones | app/services/roadmap/replan.py:66-69 | a run of three requests from the empty tables ends with an acyclic task graph and a cyclic milestone graph |
| RoadmapStore.ReplanCanReverseDates | app/services/roadmap/replan.py:93-169 | a run whose last request accepts a whole proposal, after which a milestone is due before the one it waits for, although it was due three weeks after it |
| RoadmapStore.Store.CountTasks | app/services/roadmap/service.py:176-180 | the number of tasks of a milestone and of those done |
| RoadmapStore.Store.RecomputeMilestoneProgress | app/services/roadmap/service.py:175-181 | writes the rounded share of that milestone's tasks that are done, and nothing else |
| RoadmapStore.Store.AppendTemplate | app/services/roadmap/service.py:121-172 | the nested loops add the template's rows and return their true counts |
| RoadmapStore.Store.AppendMilestones | app/services/roadmap/service.py:144-166 | the inner loops add one phase's milestones and tasks |
| RoadmapStore.Store.GenerateRoadmap | app/services/roadmap/service.py:29-113 | a startup without a roadmap gets one from the template, any other keeps its own |
| RoadmapStore.Store.ApplyGalleryTemplate | app/api/v1/endpoints/roadmap.py:330-364 | generates if needed, applies a template at most once, and reports what was added |
| RoadmapStore.Store.CreateMilestone | app/api/v1/endpoints/roadmap.py:421-449 | inserts into the caller's own phase or refuses |
| RoadmapStore.Store.UpdateMilestone | app/api/v1/endpoints/roadmap.py:453-494 | sets date and status and recomputes, or refuses a foreign row |
| RoadmapStore.Store.DeleteMilestone | app/api/v1/endpoints/roadmap.py:498-507 | deletes the milestone with its tasks and their dependencies, or refuses |
| RoadmapStore.Store.Cascade | app/api/v1/endpoints/roadmap.py:504-506 | deletes exactly the rows below the given milestones |
| RoadmapStore.Store.CreatePhase | app/api/v1/endpoints/roadmap.py:368-389 | adds a phase to an existing roadmap, or refuses |
| RoadmapStore.Store.DeletePhase | app/api/v1/endpoints/roadmap.py:408-417 | deletes the phase with everything below it, or refuses |
| RoadmapStore.Store.CreateTask | app/api/v1/endpoints/roadmap.py:511-538 | inserts the task and recomputes its milestone, or refuses |
| RoadmapStore.Store.UpdateTask | app/api/v1/endpoints/roadmap.py:542-559 | sets the status and recomputes its milestone, or refuses |
| RoadmapStore.Store.DeleteTask | app/api/v1/endpoints/roadmap.py:563-576 | deletes the task with its dependencies and recomputes, or refuses |
| RoadmapStore.Store.CreateDependency | app/api/v1/endpoints/roadmap.py:580-609 | stores the edge exactly when allowed; each refusal says which check failed, and success whether the row is new |
| RoadmapStore.Store.DeleteDependency | app/api/v1/endpoints/roadmap.py:613-630 | deletes an existing edge of an own task, or refuses |
| RoadmapStore.Store.MilestonePrecedence | app/services/roadmap/replan.py:52-70 | the predecessor sets are exactly the projection of the task dependencies onto milestones |
| RoadmapStore.Store.Proposal | app/api/v1/endpoints/roadmap.py:633-656 | the preview is what some order of iteration returns for the roadmap's own milestones and precedence, and moves only what is late or waits for it |
| RoadmapStore.Store.ApplyReplan | app/services/roadmap/replan.py:147-208 | moves exactly the requested milestones that the proposal names, reports the others as skipped, and records one history row if any was moved |
| RoadmapStore.Store.WriteChanges | app/services/roadmap/replan.py:154-181 | the loop writes each requested change once and snapshots it |
| JobQueue.BackoffGrowsWithinBounds | app/worker/runner.py:19-22 | delays lie between 30 and 3600 seconds and never get shorter |
| JobQueue.BackoffCapsFromEighth | app/worker/runner.py:19-22 | the delay doubles up to the seventh attempt and is an hour from the eighth on |
| JobQueue.BackoffTable | app/worker/runner.py:19-22 | the delays are 30, 60, 120, 240, 480, 960 and 1920 seconds, then an hour |
| JobQueue.ClaimedAreDue | app/worker/runner.py:37-54 | a claim takes at most a batch of free rows that were queued or stale and not due later, the oldest first, none left while there is room, and gives each one attempt more |
| JobQueue.Queue.ReapStale | app/worker/runner.py:25-34 | exactly the running rows not touched within the window become queued, all other rows and columns stay, and the count is theirs |
| JobQueue.Queue.PickOldest | app/worker/runner.py:40-50 | the oldest free rows first, at most the batch size, none older left behind |
| JobQueue.Queue.ClaimBatch | app/worker/runner.py:37-55 | after the reap, exactly the oldest due and unlocked rows become running with one attempt more |
| JobQueue.Queue.MarkRunning | app/worker/runner.py:51-54 | the loop marks exactly the claimed rows |
| JobQueue.Queue.FinalizeSuccess | app/worker/runner.py:58-61 | the row succeeds and its error is cleared |
| JobQueue.Queue.FinalizeFailure | app/worker/runner.py:64-71 | the row is queued again after its delay while attempts remain, otherwise failed |
| JobQueue.Queue.FinalizeTerminalFailure | app/worker/runner.py:74-84 | the row fails without retry |
| JobQueue.Queue.RunJob | app/worker/runner.py:105-115 | an unhandled kind fails outright, a raising handler goes the retry way, otherwise success |
| JobQueue.Queue.RunOnce | app/worker/runner.py:87-116 | every claimed row ends in the state its own outcome gives it, whatever the others did, and all other rows are as the reap left them |
| WorkerProtocol.AttemptsAreBounded | app/worker/runner.py:25-71 | in every run attempts equal the number of claims and are at most the maximum plus the number of times the job was reaped; a job no reap took back is claimed at most the maximum number of times |
| WorkerProtocol.RetriesWaitTheirDelay | app/worker/runner.py:64-71 | in every run in which no reap finds a late worker, a re-queued job is not claimed before its delay has passed, and its delays never get shorter |
| WorkerProtocol.DelaysGrowUpToSeventh | app/worker/runner.py:19-22 | the next delay is strictly longer exactly up to the seventh attempt |
| WorkerProtocol.OverrunCutsTheWait | app/worker/runner.py:64-71 | from any world with a late worker and attempts left: after a reap and a second claim both holders fail, and the job is due after the shorter delay of the attempts the late one loaded |
| WorkerProtocol.ExclusiveIffTimely | app/worker/runner.py:25-55 | throughout a run every held job is running and its holder's alone if and only if no reap finds a worker past the stale window |
| WorkerProtocol.NoJobHasTwoHolders | app/worker/runner.py:25-55 | when no reap finds a late worker, no job has two holders |
| WorkerProtocol.ReclaimableIffLate | app/worker/runner.py:25-55 | after a reap an idle worker can claim a job another one holds if and only if that one is past the stale window, and then the job has two holders |
| WorkerProtocol.TerminalIsForever | app/worker/runner.py:25-84 | under the same condition a succeeded or failed row is never touched again |
| WorkerProtocol.ReapIsSafeIffTimely | app/worker/runner.py:28-32 | a reap leaves every held job with its holder if and only if nobody is late |
| WorkerProtocol.ClaimKeepsExclusive | app/worker/runner.py:40-50 | the claim takes only rows that nobody holds |
| WorkerProtocol.OverrunUndoesSuccess | app/worker/runner.py:25-71 | from any world with a late worker: a reap and a claim give its job a second holder, and when that one succeeds and the late one fails, the job is queued again or failed |
| WorkerProtocol.OverrunIsReachable | app/worker/runner.py:25-55 | such worlds are reached under every configuration that claims at all |
| WorkerProtocol.RunOnceIsAPath | app/worker/runner.py:87-116 | one worker's `run_once` is a path of the protocol's steps, so the run theorems hold of what it writes |
| Scheduler.PreFilterIsInvisible | app/worker/scheduler.py:72-81 | leaving out items already in the ledger changes neither ledger nor jobs nor the returned count |
| Scheduler.DetectorsMayFilter | app/worker/scheduler.py:67-161 | a tick through the three detectors, each filtering by a ledger read of its own, does what a tick over everything due would do |
| Scheduler.DueExactly | app/worker/scheduler.py:67-152 | due are today's mission of each active startup from the generation hour on, each overdue milestone once for all, and one assessment in the quarter of the month for each startup due for it with none in progress |
| Scheduler.TickClaimsAll | app/worker/scheduler.py:161-169 | a tick claims exactly the keys of what is due, enqueues only for keys that were not claimed before, and returns the number of jobs it added |
| Scheduler.FilteredItemsAreSkipped | app/worker/scheduler.py:72-81 | in every run, while others commit, processing an item some earlier read showed as claimed waits for nobody and does nothing but drop it |
| Scheduler.SchedulerStore.Claim | app/worker/scheduler.py:33-45 | inserts the key, and succeeds exactly when it was not there |
| Scheduler.SchedulerStore.SchedulerTick | app/worker/scheduler.py:155-171 | claims and enqueues in order; a failing enqueue keeps its claim, adds no job and is not counted |
| Scheduler.ProcessKeepsAccounts | app/worker/scheduler.py:163-169 | within a tick each claimed key has one staged job unless its enqueue failed |
| Scheduler.OneJobPerPeriod | app/worker/scheduler.py:155-171 | over any interleaving of ticks, commits and crashes at most one job per key, and exactly one for each committed claim whose enqueue did not fail |
| Scheduler.TickIsAPath | app/worker/scheduler.py:155-171 | one worker's tick is a path of the protocol's steps, so the run theorems hold of what it writes |
| Scheduler.LedgerOnlyGrows | app/worker/scheduler.py:33-45 | a key once in the ledger stays there |
| Questionnaire.NextQuestion | app/services/assessment/engine.py:34-40 | returns the first open question in bank order, and none exactly when nothing applicable is unanswered |
| Questionnaire.HoldsIsMonotone | app/services/assessment/engine.py:7-25 | more answers never make a condition false |
| Questionnaire.ApplicableIsMonotone | app/services/assessment/engine.py:28-31 | a question once applicable stays applicable |
| Questionnaire.ConditionsCombine | app/services/assessment/engine.py:8-11 | `all` is conjunction and `any` disjunction of their parts |
| Questionnaire.LeafConditions | app/services/assessment/engine.py:12-25 | `in` is `eq` to one of the options, a missing answer equals nothing, and a missing field equals only a missing `eq` |
| Questionnaire.OneMoreQuestion | app/services/assessment/scoring.py:8-32 | a question adds its maximum and its answer to a dimension exactly when it belongs to it, carries points, is answered and applies; a scale answer earns its value, a single choice the points listed for it or 0, several choices their sum up to the maximum, other types nothing |
| Questionnaire.ChoicesAddUp | app/services/assessment/scoring.py:13-15 | the points of several choices add up, an unlisted one earning 0 |
| Questionnaire.BestAnswersGiveHundred | app/services/assessment/scoring.py:22-33 | a dimension in which everything that counts is answered as well as possible scores 100 |
| Questionnaire.HigherScaleNeverLowers | app/services/assessment/scoring.py:8-33 | a higher answer on a scale never lowers a score when no condition looks at that answer |
| Questionnaire.HigherScaleCanLower | app/services/assessment/scoring.py:27-33 | otherwise it can: a bank in which raising an answer from 4 to 5 lowers the score from 80 to 60 |
| Questionnaire.Share | app/services/assessment/scoring.py:32-33 | the share is the percentage rounded to nearest with ties to even, 100 from full points on, and 50 when nothing counts |
| Questionnaire.ScoreOneDimension | app/services/assessment/scoring.py:22-33 | the loop computes the rounded share of earned over available points of the applicable answered questions |
| Questionnaire.ScoreAnswers | app/services/assessment/scoring.py:19-35 | the five shares, and their mean rounded to nearest with ties to even |
| Questionnaire.FilterDropsNothing | app/services/assessment/scoring.py:28 | when every answered question is applicable, the applicability filter leaves the score unchanged |
| AssessmentRun.AnsweredStaysApplicable | app/services/assessment/service.py:89-115 | in every run whatever was answered is still applicable, and there are at most as many answers as questions |
| AssessmentRun.AcceptsExactly | app/services/assessment/service.py:89-115 | an answer is accepted exactly while in progress, for the first open question, with a value that suits its type |
| AssessmentRun.StoredAnswersSuit | app/services/assessment/engine.py:43-66 | in every run each stored answer suits its question: an offered option, a non-empty choice of offered ones, one of 1 to 5, a non-negative number, or a text that is not blank |
| AssessmentRun.CompletionIsExact | app/services/assessment/service.py:133-245 | once completed a question is answered if and only if it is applicable, the scorer's filter drops nothing, and the result was written and announced exactly once |
| AssessmentRun.FinalAnswersAreLeast | app/services/assessment/engine.py:34-40 | the finished answers are contained in every complete answer map that agrees with them |
| AssessmentRun.Assessment.SubmitAnswer | app/services/assessment/service.py:89-115 | accepts exactly a valid answer to the current question while in progress, and says why it refuses |
| AssessmentRun.Assessment.ReadAnswers | app/services/assessment/service.py:146-154 | refuses with the missing question, or remembers the complete answers it read |
| AssessmentRun.Assessment.ClaimAndScore | app/services/assessment/service.py:165-245 | only the caller that finds the assessment in progress scores and announces; every caller returns the one stored result |
| Paging.ListingIsSorted | app/services/notifications/service.py:79 | the reference listing holds exactly the rows in strictly descending key order |
| Paging.ListingIsUnique | app/services/notifications/service.py:79 | any sorted arrangement of the rows is the reference listing |
| Paging.TopRows | app/services/notifications/service.py:89 | ordered selection with a limit returns the first rows of the listing |
| Paging.Page | app/services/dashboard/service.py:281-296 | a page is the next stretch of the listing after the cursor, and the next cursor is its last key exactly when more rows follow |
| Paging.PageIsPage | app/services/notifications/service.py:76-94 | the page is the newest 1 to 50 rows, as asked, of those older than the cursor by time and id, newest first, with a cursor on the last one exactly when some are left |
| Paging.RestOfListing | app/services/dashboard/service.py:288-293 | the rows after a row's key are the rest of the listing |
| Paging.PagesListEverythingOnce | app/services/notifications/service.py:66-95 | following the next cursor lists exactly the rows present at the start, none twice and none missed, for every limit, while newer rows arrive |
| Paging.StayersAreListedOnce | app/services/notifications/service.py:66-95 | whatever is added, removed or marked between the pages, nothing is listed twice, only rows some request saw are listed, the pages end, and every key present throughout is listed |
| Paging.SplitOnce | app/services/dashboard/service.py:267 | splits at the first separator, and fails exactly when there is none |
| Paging.DecodeUndoesEncode | app/services/notifications/service.py:13-28 | decoding an encoded cursor gives the key back |
| Paging.ListNotifications | app/services/notifications/service.py:66-95 | filters by user, startup and unread, refuses a malformed cursor, and otherwise returns the page and its encoded next cursor |
| Sessions.AtMostOneLiveSession | app/services/auth/sessions.py:25-130 | in every run each family has at most one live session and no session is rotated twice, however many callers race |
| Sessions.DeadFamiliesStayDead | app/services/auth/sessions.py:48-130 | a family left without a live session never has one again |
| Sessions.SessionsLastThirtyDays | app/services/auth/sessions.py:25-79 | in every run each session expires 30 days after the step that issued it, and was rotated, if at all, within them |
| Sessions.LatePresentationKillsTheFamily | app/services/auth/sessions.py:69-89 | in every run, rotating a session more than 30 days after it was issued leaves its family dead |
| Sessions.ClaimableMayRotate | app/services/auth/sessions.py:55-93 | a token may rotate exactly when its session was neither rotated nor revoked, has not expired and belongs to an existing user |
| Sessions.ReuseKillsTheFamily | app/services/auth/sessions.py:81-89 | presenting a token that can no longer be claimed leaves its family without a live session |
| Sessions.SecondClaimantKillsTheFamily | app/services/auth/sessions.py:64-89 | of two callers with the same live token the second takes down the whole family, the first one's new session included |
| Sessions.LogoutOfLiveTokenKillsTheFamily | app/services/auth/sessions.py:111-119 | revoking the live token of a family leaves it without a live session |
| Sessions.ClaimKeepsSound | app/services/auth/sessions.py:71-80 | claiming a live session leaves its family with no live one until the next is issued |
| Sessions.SessionStore.IssueTokenPair | app/services/auth/sessions.py:25-79 | adds one live session of that user, in the given family or a new one, that expires in 30 days |
| Sessions.SessionStore.ReadSession | app/services/auth/sessions.py:55-61 | finds a session by its token, and none exactly when no row has it |
| Sessions.SessionStore.RevokeFamily | app/services/auth/sessions.py:101-108 | stamps exactly the unrevoked rows of the family |
| Sessions.SessionStore.ClaimAndIssue | app/services/auth/sessions.py:63-98 | rotates and issues in the same family exactly when the row is still live and unexpired and the user exists, otherwise refuses |
| Sessions.SessionStore.RotateRefresh | app/services/auth/sessions.py:48-98 | answers with a new token exactly when some session of an existing user has this token, is neither rotated nor revoked and has not expired |
| Sessions.SessionStore.RevokeSession | app/services/auth/sessions.py:111-119 | stamps exactly the row of the token, unless already revoked |
| Sessions.SessionStore.RevokeAllForUser | app/services/auth/sessions.py:122-130 | stamps and counts exactly the user's unrevoked rows |
| Missions.RunIsTheMaximalOne | app/services/mission/service.py:174-193 | the counted run of complete days is the one maximal run ending there |
| Missions.CompletingTodayRaisesTheStreak | app/services/mission/service.py:180-184 | completing today's mission and nothing else raises the streak by exactly one |
| Missions.CompletingADayKeepsTheStreakIff | app/services/mission/service.py:174-193 | completing one day never shortens the streak, and leaves it unchanged exactly when the day is neither today nor the one just before the run |
| Missions.PlanIsFair | app/services/mission/service.py:125-167 | at most `size` items, carried ones first in their order, no roadmap task twice, and short only when every snoozed and every candidate task is in it |
| Missions.NoCandidateIsPassedOver | app/services/mission/service.py:146-150 | a candidate is taken only if every earlier candidate is in the mission too |
| Missions.NextOrder | app/services/mission/service.py:313-314 | one more than the largest order, zero in an empty mission |
| Missions.MissionsStaySound | app/services/mission/service.py:95-435 | in every run no mission links a roadmap task twice, finished missions are complete, and completion is published exactly once for each complete mission |
| Missions.GeneratedMissionIsFair | app/services/mission/service.py:95-171 | on a generating day of any run: at most `size` open tasks ordered from zero, snoozed ones first, short only when nothing is left out |
| Missions.OpenedIsNewDay | app/services/mission/service.py:95-171 | a Saturday or Sunday, unless the settings allow it, gets an empty mission and no job; any other new day gets as many tasks as the size, 3 by default, allows out of the snoozed ones and the candidates not carried already |
| Missions.CompletionIsEarned | app/services/mission/service.py:328-353 | in every run a mission becomes complete only when every task is done or rejected and one is done, in the step that publishes it |
| Missions.StaysFinishedIff | app/services/mission/service.py:309-435 | a finished complete mission stays finished exactly in the steps that add no task to it, snooze none of it and do not reject its only done task |
| Missions.CompleteMissionReopens | app/services/mission/service.py:309-325 | for every day a run ends with its mission complete and a task open |
| Missions.CompleteIsForever | app/services/mission/service.py:341-353 | in every run a complete mission stays complete and no mission is dropped |
| Missions.CompletingTodayAddsOneDay | app/services/mission/service.py:174-193 | in every run, a step that completes today's mission adds one to the streak |
| Missions.AnnouncedWithoutCrossingIff | app/services/mission/service.py:373-381 | a completing step announces exactly the milestone the streak then stands at; it stood there before exactly when the completed day is neither today nor the one just before the run |
| Missions.MilestoneAnnouncedTwice | app/services/mission/service.py:373-381 | for each of the three milestones a run in which two steps in a row announce it |
| Missions.MissionStore.MostRecentPrior | app/services/mission/service.py:67-73 | the latest mission before today, if any |
| Missions.MissionStore.GetOrGenerateToday | app/services/mission/service.py:95-171 | keeps today's mission, refuses without a roadmap, creates an empty one on a weekend day off, and otherwise one of the promised size with its explanation job |
| Missions.MissionStore.CarryOver | app/services/mission/service.py:125-142 | the loop carries the first snoozed tasks up to the mission size |
| Missions.MissionStore.FillUp | app/services/mission/service.py:144-167 | the loop fills up with the candidates that were not carried, in their order |
| Missions.MissionStore.CountStreak | app/services/mission/service.py:174-193 | the loop ends and returns the maximal run of complete days ending at its anchor |
| Missions.MissionStore.AddCustomTask | app/api/v1/endpoints/mission.py:142-161 | appends an unlinked open task behind all others, starting a mission if there is none |
| Missions.MissionStore.MaybeComplete | app/services/mission/service.py:328-381 | completes and announces exactly a pending mission with nothing open and something done, with a milestone event at streaks of 7, 30 and 100 |
| Missions.MissionStore.Complete | app/services/mission/service.py:384-409 | marks the task done, announces it and re-checks the mission; a done task is left alone |
| Missions.MissionStore.Reject | app/services/mission/service.py:424-435 | marks the task rejected and re-checks the mission |
| Missions.MissionStore.Snooze | app/services/mission/service.py:412-415 | marks the task snoozed and touches nothing else |
| Missions.MissionStore.Reorder | app/services/mission/service.py:418-421 | moves the task and touches nothing else |
| Learning.OneMoreLesson | app/services/learning/service.py:70-85 | recording a lesson never lowers a percentage and affects its own course and member only |
| Learning.ProgressIsTheRecount | app/services/learning/service.py:140-163 | in every run the stored percentage is the share of the course's lessons the member completed, rounded to nearest with ties to even; `completed_at` is set exactly at 100, and a certificate exists once exactly then |
| Learning.ProgressNeverDecreases | app/services/learning/service.py:156-161 | no step lowers a percentage or unsets a completion |
| Learning.FullExactlyWhen | app/services/learning/service.py:76-85 | a course reads 100 exactly when it has lessons and at most one in two hundred is missing |
| Learning.CertificateMeansAllLessons | app/services/learning/service.py:159-161 | in every run, for an enrolled member and a course of 1 to 199 lessons, a certificate exists exactly when all its lessons are completed |
| Learning.HundredMeansAllIffUnderTwoHundred | app/services/learning/service.py:70-85 | reading 100 implies that all lessons are completed, for every set of completions, if and only if the course has fewer than 200 lessons |
| Learning.OneMissingOfTwoHundred | app/services/learning/service.py:85 | with 199 of 200 lessons completed the course reads 100 |
| Learning.RepeatChangesNothing | app/services/learning/service.py:145-146 | completing a lesson again leaves all tables as they are |
| Learning.LearningStore.GetOrCreateEnrollment | app/services/learning/service.py:37-67 | refuses an unknown course, otherwise ensures one enrolment and says whether it is new |
| Learning.LearningStore.RecordLesson | app/services/learning/service.py:88-109 | records the lesson once |
| Learning.LearningStore.RollUp | app/services/learning/service.py:150-163 | under the row lock records, recounts, and certifies exactly on first reaching 100 |
| Learning.LearningStore.CompleteLesson | app/services/learning/service.py:140-163 | refuses an unknown lesson, otherwise enrols, rolls up, and returns a certificate exactly when this call completed the course |
| Recommendations.CandidatesAreTheTriggered | app/services/health_score/recommendations.py:14-23 | the candidates have distinct keys, exactly those scoring below their trigger |
| Recommendations.RankedIsSorted | app/services/health_score/recommendations.py:22 | the ranking is descending by weighted gap, then lift, and a permutation of the candidates |
| Recommendations.RankingIsStable | app/services/health_score/recommendations.py:22 | of two candidates the better comes first, of equal ones the one listed first |
| Recommendations.PendingAreTheTriggered | app/services/health_score/recommendations.py:29-55 | afterwards the pending keys are exactly the triggered ones not accepted or dismissed, and the resolved keys are unchanged |
| Recommendations.PrioritiesFollowTheRanking | app/services/health_score/recommendations.py:35-55 | pending rows carry distinct places in the ranking and the catalogue's lift |
| Recommendations.PendingExactly | app/services/health_score/recommendations.py:14-41 | an entry is pending afterwards exactly when its dimension, 50 if unscored, scores below its trigger and nobody has accepted or dismissed it |
| Recommendations.LargerGapComesFirst | app/services/health_score/recommendations.py:19-22 | of two pending entries the one further below its trigger, weighted, or at equal gaps the one with more lift, has the smaller priority |
| Recommendations.SecondRunChangesNothing | app/services/health_score/recommendations.py:10-56 | a second run with the same scores changes nothing |
| Recommendations.HistoryDoesNotMatter | app/services/health_score/recommendations.py:10-56 | pending keys, priorities and lifts depend only on the scores and on which keys were resolved |
| Recommendations.RowIdsStayDistinct | app/services/health_score/recommendations.py:38-50 | in every run no two recommendations share an id |
| Recommendations.ResolvedIsForever | app/services/health_score/service.py:333-347 | in every run an accepted or dismissed recommendation keeps its status and is never dropped |
| Recommendations.RecommendationStore.CollectCandidates | app/services/health_score/recommendations.py:14-21 | the nested loops collect the triggered entries of all dimensions in catalogue order |
| Recommendations.RecommendationStore.FromDimension | app/services/health_score/recommendations.py:16-21 | the inner loop collects one dimension's triggered entries with their weighted gaps |
| Recommendations.RecommendationStore.GenerateRecommendations | app/services/health_score/recommendations.py:10-56 | the table afterwards is the reconciled one |
| Recommendations.RecommendationStore.WriteRows | app/services/health_score/recommendations.py:35-55 | the loop inserts or refreshes each ranked candidate and leaves every other row alone |
| Recommendations.RecommendationStore.WriteRow | app/services/health_score/recommendations.py:36-55 | a missing row is inserted as pending, a dismissed one left alone, any other keeps its id, dimension and status with the new place and lift; other rows are untouched |
| Recommendations.RecommendationStore.ResolveRecommendation | app/services/health_score/service.py:333-347 | resolves a pending row, repeats idempotently, refuses a different decision and an unknown id |
| Signatures.LatestIsLast | app/services/documents/signatures.py:97-109 | the latest token of a signer is the one issued to it with nothing issued to it since |
| Signatures.CompleteExactlyWhenAllSigned | app/services/documents/signatures.py:152-180 | in every run a request is complete if and only if all its signers have signed, and then announced exactly once |
| Signatures.TokenOpensExactly | app/services/documents/signatures.py:97-141 | in every run a token leads to a signer exactly when it is the latest issued to it, the signer has not signed, and the request is active and unexpired |
| Signatures.LinksLastTheirDays | app/services/documents/signatures.py:28 | in every run the links of a request created for so many days work for exactly that time, and those of one created for none, or zero, do not run out |
| Signatures.ReissuedAreFresh | app/services/documents/signatures.py:97-109 | every unsigned signer gets a token never handed out before, no two the same, and signed ones keep theirs |
| Signatures.HashesAreUnique | app/services/documents/signatures.py:134 | a token leads to one signer only |
| Signatures.EndingsAreFinal | app/services/documents/signatures.py:112-180 | complete and cancelled requests and given signatures never change again |
| Signatures.SignatureStore.HandOutTokens | app/services/documents/signatures.py:39-50 | the loop gives every unsigned signer, and no other, a fresh token |
| Signatures.SignatureStore.CreateRequest | app/services/documents/signatures.py:17-61 | refuses an empty list of signers, otherwise adds an awaiting request with one fresh token for each |
| Signatures.SignatureStore.ReissueUnsigned | app/services/documents/signatures.py:97-109 | rotates the tokens of the unsigned signers of an active request, or refuses |
| Signatures.SignatureStore.CancelRequest | app/services/documents/signatures.py:112-122 | cancels an awaiting request, also an expired one, or refuses |
| Signatures.SignatureStore.OpenForSigning | app/services/documents/signatures.py:133-141 | finds the signer a token opens, and refuses exactly when it opens none |
| Signatures.SignatureStore.RecordSignature | app/services/documents/signatures.py:144-180 | signs exactly an unsigned signer of an active request, and completes it with the last signature |

## Left out

- HTTP routing, authentication, schemas, serializers and response envelopes: no state of their own.
- Database internals (flush, savepoints, locks, isolation): each is one atomic step or a unique-key check; an error that aborts a whole transaction is a crash step or not modelled.
- Two unlocked read-then-write requests at once (two dependency creations, two last signers, two answers to one assessment, a re-scoring and an accept): each such request is one atomic step, as the code promises nothing more.
- AssessmentRun.Assessment.SubmitAnswer: the gate and the upsert are one step, so two submissions between one's gate and its upsert are not covered.
- `start_or_resume` and its reuse of an open assessment are not modelled; a run starts with a new assessment.
- Sessions.SessionStore.RotateRefresh: states what the service function writes. On reuse it raises, and the endpoint's commit (app/api/v1/endpoints/auth/sessions.py:42) is reached only on success, so the family revocation proved here is not persisted by that request.
- Scheduler.SchedulerStore.SchedulerTick: a failing enqueue is one that leaves the transaction usable; a database error that aborts the whole tick is the `Crash` step of the protocol, not an outcome of the method.
- WorkerProtocol.RetriesWaitTheirDelay: holds of runs whose reaps find no late worker; what a late worker does to the delays is `WorkerProtocol.OverrunCutsTheWait`.
- WorkerProtocol.RunOnceIsAPath: one batch while no other worker moves; interleaved batches are covered step by step by the run theorems.
- Titles, descriptions, owners, display order of roadmap rows, task due dates and `update_phase`: written and read back without any rule.
- The sentences explaining a re-plan are kept as data (which case, how many days, which milestone), not as text.
- UUIDs and random tokens: fresh numbers; two of them never collide, and hashes of different tokens differ.
- Date arithmetic is unbounded; Python raises at the year 9999.
- Rounding: `round(100 * a / b)` divides in floating point first; the model rounds the exact quotient, which agrees for counts of any practical size. The weighted gap of a recommendation is an exact product.
- Python's recursion limit in the milestone sort.
- Questionnaire.NextQuestion: a null listed among the options of a startup-field condition is not modelled, and white space is the four ASCII blanks.
- The narrative sentence of a score, and the follow-up health-score recomputation of a completed assessment.
- `create_notifications`, `mark_read`, `mark_all_read` and `unread_count`: one-branch updates that paging does not depend on.
- Paging.DecodeUndoesEncode: timestamps, UUIDs and base64 are parameters that read back what they wrote; their texts are not modelled.
- Missions.MissionStore.GetOrGenerateToday: candidate tasks and the snoozed tasks arrive as the ordered queries return them, equal orders in any order; two generations of one day at once are serialised by the unique key.
- Effort, reasons and completion times of mission tasks, weekly completion percentage and history.
- Path progress, recommended courses and continue-watching shelves: read-only expressions.
- A course catalogue that changes while lessons are being completed.
- Recommendations.RecommendationStore.WriteRow: title, body and effort of a new row are copied from the catalogue and not kept in the model.
- Signer names, e-mail addresses, IP addresses and user agents; the deletion of a document with its requests.
- Time zones of the scheduler: hour, day, month and year in its zone are given, and so are the active startups, the overdue milestones and the startups due for reassessment, which plain queries select.
- The business canvas, records, shares, journal, invitations, preferences, e-mail, storage, and the AI handlers.
