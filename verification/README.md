# Batch scheduler: verified models

A Dafny 4.11 project that models the protocols and the algorithmic parts of the batch scheduler, a
control service (`batch_scheduler`), a beat-side service (`batch-celery`) and workers
(`batch-worker`), and proves properties of them. `dafny verify dfyconfig.toml` checks everything.

| file | what it models |
|---|---|
| `Rescheduler.dfy` | instances of the beat-side scheduler creating the next entry of each job and workflow under a lock, interleaved with each other and with beat firing entries |
| `UnlockedCreation.dfy` | the worker creating entries without that lock: exactly when two can be enabled together |
| `WorkflowScheduling.dfy` | the sorted task list of a workflow, its priority groups, and the two copies of the class |
| `WorkflowRun.dfy` | one workflow run: groups dispatched one chord at a time until one blocks |
| `Recovery.dfy` | marker files, crashes, and the recovery pass at worker start |
| `RecoveryPass.dfy` | job logs, task markers, and a recovery pass as the sequence of its per-file steps |
| `JobLifecycle.dfy` | the worker's hooks around a job: admission, retries, counters, auto-drop, updates |
| `Revocation.dfy` | flattening nested results, and the worklist that stops a task with everything it spawned |
| `Assignment.dfy` | assigning jobs to a workflow and deleting one, in both services' databases |
| `Filters.dfy` | compiling filter parameters to SQL conditions |
| `Queries.dfy` | the query builder, counting, paging, and the server restart loop |
| `RunLogs.dfy` | the last-log table as an index of the run logs |
| `RecurrenceRule.dfy` | the three rule validators (section 3.3.10 of RFC 5545) |

## How it is modelled

Protocols are step systems. A state is a value, a step is enabled or not, and an execution is a list
of steps, so a statement over all executions covers every interleaving. Code that updates objects,
tables or accumulators in loops is modelled by classes and methods whose postconditions give the
whole new state through a specification function; what the code promises is then proved of that
function.

The models rest on these assumptions:

- A hook, a request handler or a database transaction is one atomic step, except where a model says
  otherwise (the rescheduler's lock, the markers on disk, the statements of an assignment).
- A chord runs its callback once, after all results of its header are in.
- A Redis lock is held by one process and outlives the critical section it protects.
- The marker directory is on one host and a file write is atomic.
- A recurrence rule is a function that gives an occurrence not before the instant it is asked for.
- The database returns the rows of the same query in the same order each time, numbers rows in query
  order, and an empty `and_`/`or_` adds no condition.
- A query for whole entities returns each entity once, however many joined rows it is in.

Random and generated values (task ids, group ids, random names), clocks, replies of other services,
outcomes of job bodies, and the library's `int`, `strptime` and `upper` are parameters.

## Where the code departs from its evident intent

The code is modelled as it is, with the exact condition under which it meets the intent:

- A `return` in a `finally` block drops the refusal of an instance of a workflow run or of a disabled
  job (`JobLifecycle.RefusedYetRuns`). An instance counts as admitted when it reaches the increment
  of `run_count`.
- Such a refusal has cleared the task cache, so a body that succeeds all the same is not recorded as
  succeeded (`JobLifecycle.RefusedNeverSucceeds`).
- An update that leaves `max_run` at 0 is not compared with `run_count` (`JobLifecycle.UpdateExact`).
- The lookup of an existing entry compares the `task` column with an entry name
  (`Rescheduler.NoTaskMatches`).
- The worker creates entries without the lock. That is harmless for ever exactly if the new entry is
  the only enabled one, no scheduler has already decided to create one, and none that still has the
  job on a stale list would find a stale entry newer than it (`UnlockedCreation.UnlockedCreateExact`).
- Recovery keeps the marker of a run it has already failed, and fails a run that had ended while its
  marker was still there (`Recovery.RunMarkersStay`, `Recovery.EndedRunRewritten`).
- A crash between creating a run row and writing its marker leaves the run RUNNING
  (`Recovery.RecoveryExact`).
- A worker that ends a run drops its marker even when the update of the run's row failed, because a
  failed call is swallowed (batch-worker/celerytasks/tasks.py:299-307,
  batch-worker/celerytasks/utils.py:477-500). The run stays RUNNING through every recovery pass
  (`Recovery.LostUpdate`, `Recovery.LostUpdateInput`).
- Error values of the celery-side assignment are ignored by its caller, which then reports success, so
  that the control side commits a whole request and the celery side a part. That happens exactly when
  the control side accepts the request and the first group the celery side cannot take has no jobs,
  no priority or priority 0, or a job it does not know; whether the stores then still agree is
  `Assignment.SplitExactly`. An exception, in a group or later, undoes the request on both sides
  (`Assignment.AgreementKept`, `Assignment.AssignJobToWorkflow`). Priority 0 is accepted on one
  side only (`Assignment.ZeroPrioritySplits`).
- Deleting a workflow without groups does not reach the celery side (`Assignment.DeleteInBoth`).
- An operator map under `or_` becomes several disjuncts and a dictionary in a filter list is cut to
  its first entry (`Filters.FaithfulExactly`).
- Logs are updated by task name whichever job they belong to, but only one job's index row is
  refreshed (`RunLogs.UpdateExactly`); a log without an operation is not found by the lookup although
  it is not OUTDATED (`RunLogs.Relevant`).
- The worker's copy of the workflow scheduler reads every interval as 1, so it accepts a task whose
  interval the celery copy refuses (`WorkflowScheduling.AddsAgreeExactly`).

## Model

| member | source | states |
|---|---|---|
| `Rescheduler.ReachableInv` | batch-celery/batchbe/scheduler.py:120-302 | From any table of spaced, properly named entries, every state reached by any interleaving of instances, beat firings, deletions and process deaths has matching locks, entries spaced by more than the cooldown with only the newest enabled, and instances about to create whose knowledge is still true. |
| `Rescheduler.StepKeepsInv` | batch-celery/batchbe/scheduler.py:120-361 | Each single step of any instance, of beat or of a deletion keeps that invariant. |
| `Rescheduler.AtMostOneEnabled` | batch-celery/batchbe/scheduler.py:153-162 | Whatever other services had put into the table, if only newest entries were enabled at the start, then in every later state an enabled entry of a target is its newest, so there is at most one. |
| `Rescheduler.MutualExclusion` | batch-celery/batchbe/redis_helper.py:43-52 | From any table, no two instances are ever inside the critical section of the same target. |
| `Rescheduler.TimesAndNamesDiffer` | batch-celery/batchbe/scheduler.py:124-177 | Entry times of a job grow by more than the cooldown in id order whatever the clocks of the instances, so the second-resolution name of an entry a scheduler made differs from those of all other entries of the job. |
| `Rescheduler.CommitAddsOne` | batch-celery/batchbe/scheduler.py:164-203 | A commit adds exactly one entry, enabled and newest, and touches no other target; neither the lookup by task nor the unique name prevents it. |
| `Rescheduler.NameIsFree` | batch-celery/batchbe/scheduler.py:173-203 | The unique-name error cannot be raised for a target whose entries are stale. |
| `Rescheduler.NoTaskMatches` | batch-celery/batchbe/scheduler.py:185-190 | The lookup compares the task column with an entry name, so it never finds anything. |
| `Rescheduler.CreateKeepsTable` | batch-celery/batchbe/scheduler.py:164-290 | Creating an entry for a stale target keeps spacing, naming and the single enabled entry. |
| `Rescheduler.Reschedule` | batch-celery/batchbe/scheduler.py:120-313 | One instance, alone, gives each listed target that is neither queued nor locked exactly one more entry, at its next occurrence, if it had none or its newest is disabled and more than a cooldown old, and leaves every other target as it was; every lock is given back. |
| `Rescheduler.LoopIsSteps` | batch-celery/batchbe/scheduler.py:120-313 | The loop is one particular list of steps of the interleaving model, so the invariant holds through it. |
| `Rescheduler.LoopSchedulesAll` | batch-celery/batchbe/scheduler.py:120-361 | After a loop each target it listed and could lock has been scheduled once, however often it is listed: a due one whose rule goes on has exactly one more entry, with the name, task and time the source gives it; all others are as before. |
| `Rescheduler.SafeKept` | batch-celery/batchbe/scheduler.py:120-361 | Whatever the table holds, each step keeps that only the newest entry of a target is enabled, and none while an instance is about to create another. |
| `Rescheduler.TurnIsSteps` | batch-celery/batchbe/scheduler.py:139-290 | One turn of the loop is a list of steps: test the lock, take it, look at the newest entry, perhaps create, give it back. |
| `Rescheduler.OneTurn` | batch-celery/batchbe/scheduler.py:139-290 | A turn appends the entry clocked at the next occurrence exactly if the target had no entry, or its newest is disabled and more than a cooldown old, and the rule goes on; it touches no other target. |
| `Rescheduler.LoopLeavesNoneDue` | batch-celery/batchbe/scheduler.py:153-203 | After a loop, each target it listed, could lock, and whose rule goes on has a newest entry that is enabled or at most the cooldown old. |
| `Rescheduler.CreateFound` | batch-celery/batchbe/scheduler.py:185-203 | The branches of the lookup: the one entry found is given the new time, and with several nothing changes. |
| `UnlockedCreation.OneEnabledForever` | batch-celery/batchbe/scheduler.py:120-361 | For any state with matching locks, function paths as tasks and unique scheduler-made names: two entries of a target are never enabled together, whatever schedulers, beat, deletions and deaths do later, exactly if none is enabled now, or only one is and no instance has decided, or, with the target on its stale list, may still decide, to create another under a free name. |
| `UnlockedCreation.UnlockedCreateExact` | batch-worker/celerytasks/views.py:148-219 | In every such state, an unlocked creation, wherever it puts the entry, never leads to two enabled entries exactly if no other entry is enabled, no instance has decided to create one, and no instance that still has the target on a stale list would take an entry after the new one for stale. |
| `UnlockedCreation.NewestExact` | batch-worker/celerytasks/views.py:148-219 | For a new name, or the newest entry overwritten, the condition is that no instance has decided and, for a new name, no entry is enabled. |
| `UnlockedCreation.UnlockedCreateRaces` | batch-worker/celerytasks/views.py:148-219 | Against a scheduler that has already decided, an unlocked creation ends with two enabled entries in one or two steps: the commit, after the deletion of the entry that has its name, if there is one. |
| `UnlockedCreation.OlderReenabled` | batch-worker/celerytasks/views.py:156-181 | In the state right after it, overwriting an older entry leaves one enabled exactly if none was; what follows later is UnlockedCreateExact. |
| `UnlockedCreation.HarmlessRuns` | batch-worker/celerytasks/views.py:148-219 | In every run of schedulers, beat, deletions, deaths and any number of unlocked creations, each harmless where it is made, a target with at most one enabled entry never gets two. |
| `UnlockedCreation.RunTidy` | batch-worker/celerytasks/views.py:148-219 | In every run, harmful creations included, locks match, tasks are paths and scheduler-made names are unique, so the exact results apply throughout. |
| `UnlockedCreation.GuardedKept` | batch-celery/batchbe/scheduler.py:120-361 | Each step from a guarded state leads to one, or to one without an enabled entry. |
| `UnlockedCreation.Trapped` | batch-celery/batchbe/scheduler.py:120-361 | An instance that has a target on its list and would find its newest entry stale can get to it, past other targets, held locks and other batches, and then creates a second enabled entry. |
| `UnlockedCreation.CreateIs` | batch-celery/batchbe/scheduler.py:164-290 | With paths as tasks, the transaction of a scheduler adds one enabled entry, or nothing if the name is taken. |
| `WorkflowScheduling.Trichotomy` | batch-worker/celerytasks/workflow.py:77-88 | Of two tasks exactly one is less, or they tie on priority, frequency, interval and name. |
| `WorkflowScheduling.LessTransitive` | batch-worker/celerytasks/workflow.py:77-88 | The task order is transitive. |
| `WorkflowScheduling.LessMeans` | batch-worker/celerytasks/workflow.py:77-88 | By priority number, then the shorter period, then the smaller interval, then the name. |
| `WorkflowScheduling.StringLessMeans` | batch-worker/celerytasks/workflow.py:77-88 | One name comes before another if it is a proper prefix or has the smaller character where they first differ. |
| `WorkflowScheduling.SortIsSorted` | batch-worker/celerytasks/workflow.py:260-262 | Sorting leaves no task before a lesser one. |
| `WorkflowScheduling.SortKeepsTies` | batch-worker/celerytasks/workflow.py:260-262 | Sorting keeps tied tasks in their original order. |
| `WorkflowScheduling.StableSortUnique` | batch-worker/celerytasks/workflow.py:260-262 | Two sorted lists with the same tied sublists are equal: being sorted and stable determines the result. |
| `WorkflowScheduling.PerformKeepsGood` | batch-worker/celerytasks/workflow.py:123-199 | Every operation keeps the list sorted and the ids distinct. |
| `WorkflowScheduling.GroupingLosesNothing` | batch-worker/celerytasks/workflow.py:315-330 | Concatenating the groups of a sorted list, by ascending priority, gives the list back. |
| `WorkflowScheduling.FirstGroup` | batch-worker/celerytasks/workflow.py:276-287 | In any execution order, the first group is exactly the tasks of the least priority. |
| `WorkflowScheduling.ExecutionOrderUnique` | batch-worker/celerytasks/workflow.py:315-330 | A list has only one partition into uniform groups of ascending priority. |
| `WorkflowScheduling.CopiesAgree` | batch-celery/celerytasks/workflow.py:166-332 | The worker copy, which reads every interval as 1, and the celery copy, given the same calls, put the same tasks into each priority, if no task is refused for its interval alone. |
| `WorkflowScheduling.AddsAgreeExactly` | batch-celery/celerytasks/workflow.py:166-241 | After additions only, which is all the callers make, the two copies have the same groups exactly if no task is refused for its interval alone. |
| `WorkflowScheduling.IdsAdded` | batch-celery/celerytasks/workflow.py:125-200 | After additions only, the ids are the old ones and those of the accepted tasks. |
| `WorkflowScheduling.WorkflowScheduler.AddTask` | batch-worker/celerytasks/workflow.py:123-208 | Adds the task, after those tied with it, exactly when interval and priority are in bounds, keeping order, ids and the id set; otherwise changes nothing. |
| `WorkflowScheduling.WorkflowScheduler.RemoveTask` | batch-worker/celerytasks/workflow.py:289-297 | Removes the task with the id and reports whether there was one. |
| `WorkflowScheduling.WorkflowScheduler.UpdateTaskPriority` | batch-worker/celerytasks/workflow.py:299-313 | Changes the priority of the task with the id, re-sorts, and reports whether there was one. |
| `WorkflowScheduling.WorkflowScheduler.GetPriorityGroups` | batch-worker/celerytasks/workflow.py:264-274 | The dictionary has the priorities of the list, each with its tasks in list order. |
| `WorkflowScheduling.WorkflowScheduler.GetHighestPriorityTasks` | batch-worker/celerytasks/workflow.py:276-287 | The first group of the execution order, or nothing. |
| `WorkflowScheduling.WorkflowScheduler.GetExecutionOrder` | batch-worker/celerytasks/workflow.py:315-330 | A partition of the list into groups of equal priority, priorities strictly ascending, whose concatenation is the list. |
| `WorkflowScheduling.WorkflowScheduler.ClearAll` | batch-worker/celerytasks/workflow.py:363-367 | Clearing empties the list and the id set. |
| `WorkflowScheduling.AddToGroups` | batch-worker/celerytasks/workflow.py:264-274 | Appending one task to the list is appending it to the group of its priority. |
| `WorkflowRun.RunRefinesOutcome` | batch-worker/celerytasks/tasks.py:238-460 | However the returns of a group interleave, an ended run has dispatched exactly the groups, and carries exactly the verdict, of the recursive outcome of its tasks' results. |
| `WorkflowRun.OutcomeMeaning` | batch-worker/celerytasks/tasks.py:259-307 | That outcome dispatches the groups up to and including the first one with a failure whose tasks do not all ignore results; the verdict is FAILED exactly if there is one. |
| `WorkflowRun.ReachableInv` | batch-worker/celerytasks/tasks.py:238-460 | Every reachable state has dispatched exactly its first groups in order, with all earlier groups returned and not blocking. |
| `WorkflowRun.StepKeepsInv` | batch-worker/celerytasks/tasks.py:238-460 | Each hook, dispatch, return and callback keeps that invariant. |
| `WorkflowRun.NoEarlyDispatch` | batch-worker/celerytasks/tasks.py:311-401 | No task is dispatched before every task of every earlier group has returned, and only dispatched tasks return. |
| `WorkflowRun.DispatchedOnce` | batch-worker/celerytasks/tasks.py:331-401 | Every task is dispatched at most once, and every task once when the run ends in SUCCESS. |
| `WorkflowRun.ReportedOnce` | batch-worker/celerytasks/tasks.py:291-307 | The run row is closed exactly once by the end of the run, and nothing happens after that. |
| `WorkflowRun.StepDecreases` | batch-worker/celerytasks/tasks.py:238-460 | Every step lowers a measure of groups, pending tasks and closing steps left. |
| `WorkflowRun.RunIsFinite` | batch-worker/celerytasks/tasks.py:238-460 | A run takes at most a number of steps fixed by its groups and tasks. |
| `WorkflowRun.NeverStuck` | batch-worker/celerytasks/tasks.py:238-460 | A run that is not over always has a next step. |
| `WorkflowRun.PriorityRespected` | batch-worker/celerytasks/tasks.py:441-458 | A dispatched task is preceded by the return of every task with a lower priority number. |
| `WorkflowRun.Worker.RunPriorityGroup` | batch-worker/celerytasks/tasks.py:311-401 | One dispatch per task of the next group; the flag handed to the callback says whether all of them ignore results. |
| `WorkflowRun.Worker.HandleGroupCompletion` | batch-worker/celerytasks/tasks.py:238-307 | The callback closes the run as FAILED on a failure that is not ignored, queues the next group, or closes it as SUCCESS. |
| `WorkflowRun.GetOrders` | batch-worker/celerytasks/task_group.py:55-101 | The tasks correspond one to one to the rows that are enabled, have runs left or run forever, and are restartable or not late, each with its row's id, names, queue, priority, frequency, flag and delay, in execution order; it raises exactly if some enabled row lacks max_run or a participating one has a priority outside 1..100. |
| `WorkflowRun.OrderFromRows` | batch-worker/celerytasks/task_group.py:69-101 | The same correspondence for every execution order of the rows collected. |
| `Recovery.RunningHasMarker` | batch-worker/celerytasks/task_group.py:151-175 | In every reachable state a RUNNING run has its marker on disk, unless its row was only just created or a status update was lost. |
| `Recovery.RecoveryExact` | batch-worker/celerytasks/recovery.py:20-148 | After a crash anywhere, inside an earlier pass included, and a pass in which the update of this run, if a marker names it, arrives: the run is still RUNNING exactly if it was caught between the creation of its row and the writing of its marker, or its last update was lost before the crash and no marker names it any more. |
| `Recovery.LostUpdate` | batch-worker/celerytasks/tasks.py:299-307 | A worker whose last status update fails drops the marker all the same; from then on no pass closes the run unless a task marker names it. |
| `Recovery.LostUpdateInput` | batch-worker/celerytasks/tasks.py:299-307 | Such an execution: a run of one task that succeeds is left RUNNING by every pass. |
| `Recovery.ReachableInv` | batch-worker/celerytasks/recovery.py:20-148 | Every interleaving of runs, task markers, lost updates and recovery passes, each cut short at any file, keeps rows and markers consistent. |
| `Recovery.RecoverTaskKeepsInv` | batch-worker/celerytasks/recovery.py:20-105 | One task file of a pass keeps that consistency. |
| `Recovery.RecoverRunKeepsInv` | batch-worker/celerytasks/recovery.py:108-141 | One run marker of a pass keeps it. |
| `Recovery.StepKeepsInv` | batch-worker/celerytasks/recovery.py:20-148 | Each such step keeps that consistency. |
| `Recovery.ReportStores` | batch-worker/celerytasks/tasks.py:291-307 | A run that reports its verdict is stored with it if it has a job log, as SKIPPED otherwise, and no other row changes. |
| `Recovery.StoredSuccessIsReal` | batch-worker/celerytasks/tasks.py:291-307 | Over every interleaving of runs, crashes and passes, a run stored as SUCCESS ended with that verdict and has a job log. |
| `Recovery.RecoveredStatus` | batch-worker/celerytasks/recovery.py:20-148 | A pass changes the status of exactly the runs named by a marker and reached by the update. |
| `Recovery.TaskMarkersGo` | batch-worker/celerytasks/recovery.py:22-103 | A task marker goes exactly when its failed log was accepted, and that log is then on record. |
| `Recovery.RunMarkersStay` | batch-worker/celerytasks/recovery.py:117-118 | A run marker is kept exactly when an accepted task marker named the same run and workflow. |
| `Recovery.SecondPassExact` | batch-worker/celerytasks/recovery.py:108-148 | When a second pass changes a status: exactly if a leftover marker names the run, the update arrives, and the status is not already the one recovery writes. |
| `Recovery.SecondPassIdle` | batch-worker/celerytasks/recovery.py:144-148 | After a first pass with the scheduler reachable, a second pass changes no status. |
| `Recovery.StartedIsFailed` | batch-worker/celerytasks/recovery.py:78-103 | A run with a started task still on disk is recovered as FAILED, never as SKIPPED. |
| `Recovery.EndedRunRewritten` | batch-worker/celerytasks/tasks.py:291-307 | A run stored as SUCCESS is rewritten to FAILED exactly if a marker still names it and the update arrives. |
| `Recovery.CreatedUntouched` | batch-worker/celerytasks/task_group.py:151-175 | A run without a marker is touched by no pass. |
| `Recovery.JobFilesAre` | batch-worker/celerytasks/recovery.py:20-105 | Handling the task files one by one, in any order, has the effect of handling the set. |
| `Recovery.RunFilesAre` | batch-worker/celerytasks/recovery.py:108-141 | The same for the run markers. |
| `Recovery.WorkerHost.UpdateWorkflowRun` | batch_scheduler/logic/scheduler_workflow_run.py:197-238 | A known run with a job log gets the wanted status; a verdict for one without is stored as SKIPPED; no other row changes. |
| `Recovery.WorkerHost.UpdateJobs` | batch-worker/celerytasks/recovery.py:20-105 | Each accepted file closes its run, records its failed log and drops its marker; the runs reported are returned by workflow. |
| `Recovery.WorkerHost.UpdateWorkflows` | batch-worker/celerytasks/recovery.py:108-141 | Each remaining run marker closes its run and goes, except those already reported. |
| `Recovery.WorkerHost.UpdateAllPendingLocalTasks` | batch-worker/celerytasks/recovery.py:144-148 | The two passes together are the recovery function the results above are about. |
| `Recovery.WorkerHost.HandleJobFile` | batch-worker/celerytasks/recovery.py:64-98 | One accepted file: its run is closed, its failed log recorded, its marker dropped. |
| `RecoveryPass.LogsCounted` | batch_scheduler/logic/scheduler_workflow_run.py:197-238 | A run has one job log for each of its tasks that was started, whatever happens in between. |
| `RecoveryPass.NeverStartedIsSkipped` | batch_scheduler/logic/scheduler_workflow_run.py:197-238 | A run none of whose tasks was started has its verdict stored as SKIPPED. |
| `RecoveryPass.MarkerSpansTask` | batch-worker/celerytasks/custom_task.py:742-894 | A task marker is there from the start of the task until its last log call succeeds, and while it is, a pass logs the task as failed. |
| `RecoveryPass.PassIsSteps` | batch-worker/celerytasks/recovery.py:144-148 | A pass that is not cut short, over its files in any order, has the effect of the recovery function on rows, logs and markers, and loses the same updates. |
| `JobLifecycle.CountersExact` | batch-worker/celerytasks/custom_task.py:391-740 | Over every interleaving, run_count grows by one per instance whose first attempt was admitted and never for a retry; failure_count by one per instance that finally failed and never for a retried attempt. |
| `JobLifecycle.StepKeepsInv` | batch-worker/celerytasks/custom_task.py:458-1073 | Each hook and each update keeps the counters tied to the instances. |
| `JobLifecycle.AttemptsBounded` | batch-worker/celerytasks/custom_task.py:419-456 | An instance makes at most one attempt more than the largest max_failure of its job. |
| `JobLifecycle.BrokerLimitAgrees` | batch-worker/celerytasks/custom_task.py:429-456 | In every reachable state the retry the hook decides on is one the broker's own count allows. |
| `JobLifecycle.RaisedExactly` | batch-worker/celerytasks/custom_task.py:391-456 | In every reachable state an instance that raises unrevoked is queued again, with both counts equal to its attempts, exactly if the job restarts on failure, is not auto-drop, and attempts are at most max_failure. |
| `JobLifecycle.AttemptsExact` | batch-worker/celerytasks/custom_task.py:391-456 | Over every interleaving that leaves the retry settings alone, an instance that always raises finally fails after exactly max_failure + 1 attempts, or after one if the job does not restart on failure or is auto-drop. |
| `JobLifecycle.AllAttemptsHappen` | batch-worker/celerytasks/custom_task.py:391-456 | An admitted instance of a restarting job does have an execution with all these attempts. |
| `JobLifecycle.StartExactly` | batch-worker/celerytasks/custom_task.py:540-656 | The whole hook in terms of the rows: who is skipped or cancelled, when the body runs all the same, what is counted, and when the next entry is created. |
| `JobLifecycle.EntriesExact` | batch-worker/celerytasks/custom_task.py:634-656 | Entries are created by the hook before a start and by nothing else, one at a time; an instance arrives queued, without attempts, and uncounted. |
| `JobLifecycle.BeatExactly` | batch-celery/batchbe/scheduler.py:98-118 | The beat scheduler lists exactly the enabled jobs that run forever, or have not ended and have runs left; none of them would be cancelled at a first attempt. |
| `JobLifecycle.RunCountBounded` | batch-worker/celerytasks/custom_task.py:575-597 | Over every interleaving of scheduled, workflow and manual starts, retries, auto-drops and updates that do not slip through, run_count stays within max_run on a job that does not run forever. |
| `JobLifecycle.UpdateExact` | batch-celery/celerytasks/utils.py:260-267 | An accepted update keeps run_count within max_run exactly if it does not leave max_run at 0 on a bounded job that has run. |
| `JobLifecycle.AutoDropFreezes` | batch-worker/celerytasks/custom_task.py:1026-1029 | after_return of an auto-drop job sets max_run to run_count and ends its running forever. |
| `JobLifecycle.FrozenRefusedEverywhere` | batch-worker/celerytasks/custom_task.py:580-652 | A frozen job is refused by worker admission, worker rescheduling, the workflow filter and the beat filter. |
| `JobLifecycle.FrozenStays` | batch-worker/celerytasks/custom_task.py:575-597 | Until an accepted update thaws the job, run_count, the admitted instances and the created entries stay as they are, whatever is still queued. |
| `JobLifecycle.ThawExact` | batch-celery/celerytasks/views.py:1424-1438 | An accepted update leaves a frozen job frozen exactly if it keeps max_run, or gives 0 to a job that has not run, and leaves a job that has not run bounded; a null max_run thaws. |
| `JobLifecycle.RefusedYetRuns` | batch-worker/celerytasks/custom_task.py:624-632 | A refused instance runs its body all the same exactly if it belongs to a workflow run or its job is disabled; it is not counted. |
| `JobLifecycle.RefusedNeverSucceeds` | batch-worker/celerytasks/custom_task.py:315-324 | When such a body succeeds, the row keeps the status of the refusal, because the cleared task cache makes the success hook raise. |
| `JobLifecycle.RefusedCanFail` | batch-worker/celerytasks/custom_task.py:624-632 | Such a body can raise failure_count without ever having been counted. |
| `JobLifecycle.Admit` | batch-worker/celerytasks/custom_task.py:540-597 | Skips or cancels exactly the instances that are not admitted, marks the row, and counts an admitted first attempt. |
| `JobLifecycle.BeforeStartHook` | batch-worker/celerytasks/custom_task.py:458-656 | The whole hook: admission, the refusal dropped by the early return in the finally block, and whether the next entry is created. |
| `JobLifecycle.CallHook` | batch-worker/celerytasks/custom_task.py:326-456 | A raised failure of a job that restarts on failure and is not auto-drop is queued again with both counts one higher while they are below max_failure; all other outcomes go to the success or failure hook, and a revoked task moves no counter. |
| `JobLifecycle.SettleHook` | batch-worker/celerytasks/custom_task.py:742-894 | A success marks the row, unless the task cache is gone; a final failure marks it and adds one to failure_count. |
| `JobLifecycle.AfterReturnHook` | batch-worker/celerytasks/custom_task.py:934-1073 | Auto-drop freezes the job; the retry counters are reset unless computing the operation raises, for want of a row that has run or on a null max_run. |
| `JobLifecycle.UpdateJob` | batch-celery/celerytasks/views.py:1201-1438 | Refuses a positive max_run not above run_count or refused dates, and otherwise stores the update, a null max_run included. |
| `JobLifecycle.SchedulesWithinBound` | batch-worker/celerytasks/custom_task.py:642-656 | For a job within its bound, an automatic first attempt creates the next entry exactly if an instance started from it would still be within the bound, unless it belongs to a workflow run or the job is disabled. |
| `JobLifecycle.JobSettings.IncreaseRunCount` | batch-worker/celerytasks/models.py:64-67 | Adds one to run_count and changes nothing else. |
| `JobLifecycle.JobSettings.IncreaseFailureCount` | batch-worker/celerytasks/models.py:80-83 | Adds one to failure_count and changes nothing else. |
| `JobLifecycle.JobSettings.IncreaseRetryCount` | batch-worker/celerytasks/models.py:85-88 | Adds one to retry_count and changes nothing else. |
| `Revocation.WalkResults` | batch-worker/celerytasks/views.py:521-534 | The stack generator yields the left-to-right flattening of nested results. |
| `Revocation.WalkUnique` | batch-celery/celerytasks/views.py:2064-2077 | The recursive walker returns the first-occurrence de-duplication of exactly that flattening. |
| `Revocation.DedupMeaning` | batch-celery/celerytasks/views.py:2064-2077 | De-duplication keeps exactly the elements, once each, in the order of their first occurrences. |
| `Revocation.TurnKeeps` | batch-celery/celerytasks/views.py:863-872 | One turn of the worklist keeps the invariant that unseen children of a seen task lie above each of its copies; a copy pushes nothing. |
| `Revocation.TurnShrinks` | batch-celery/celerytasks/views.py:863-872 | A turn on an unseen task leaves fewer unseen ones, a turn on a copy as many. |
| `Revocation.ForceStop` | batch-celery/celerytasks/views.py:860-875 | The worklist ends on every graph, cyclic or shared, and revokes exactly the tasks reachable from the root. |
| `Revocation.Walker.Walk` | batch-celery/celerytasks/views.py:2067-2074 | A call appends the not yet seen ids of its item in order of first occurrence, and marks them as seen. |
| `Revocation.UnseenChildren` | batch-celery/celerytasks/views.py:869-871 | What is pushed is exactly the children not yet seen, in some order. |
| `Revocation.AllReached` | batch-celery/celerytasks/views.py:863-872 | When the stack is empty, the seen tasks are exactly the reachable ones. |
| `Assignment.AssignJobToWorkflow` | batch_scheduler/logic/scheduler_workflow.py:435-569 | The whole request over both services: the control side commits exactly if it accepts, the reply arrives and is no error, and is rolled back otherwise; after a success each listed job has the group, priority, flag and delay of its last entry in the request, in both stores if the celery side took every group, and the unlisted jobs of the workflow are reset; the celery side keeps what it did if it was reached and nothing after the jobs raised, and is rolled back otherwise. |
| `Assignment.AgreementKept` | batch_scheduler/logic/scheduler_workflow.py:540-569 | Unless a request goes two ways, it changes neither store or is carried out in both, and stores that agreed on the workflow still do. |
| `Assignment.TwoWays` | batch-celery/celerytasks/views.py:1827-1859 | A request goes two ways when the first group the celery side cannot take is one it stops at without an error: the control side commits all of it, the celery side the groups before, and releases nothing. |
| `Assignment.SplitExactly` | batch-celery/celerytasks/views.py:1820-1904 | For every request: stores that agree on a workflow still agree afterwards exactly if it does not go two ways, or stopping makes no difference to any job both know: an unlisted job was not in the workflow, and a listed one has in its last mention before the stop, or else already, the priority, flag and delay of its last mention of all. |
| `Assignment.UnlistedJobSplits` | batch-celery/celerytasks/views.py:1820-1904 | With a job in the workflow that the request does not list, the stores agree afterwards exactly if the request does not go two ways. |
| `Assignment.FirstAssignmentSplits` | batch-celery/celerytasks/views.py:1820-1904 | For a workflow without jobs, a request that goes two ways leaves the stores in agreement exactly if each listed job is mentioned before the stop on the terms of its last mention. |
| `Assignment.LostReply` | batch_scheduler/utils/celery_helper.py:67-87 | When the reply does not arrive, the celery side has carried the request out and the control side is rolled back. |
| `Assignment.DeleteInBoth` | batch_scheduler/logic/scheduler_jobs.py:604-668 | The whole deletion: a failed call rolls the control side back, and an error rolls the celery side back; after a success the celery side has jobs of the workflow left exactly if it had some and the workflow had no group, for then it is not called. |
| `Assignment.ControlStore.AssignJobs` | batch_scheduler/logic/scheduler_workflow.py:435-540 | The control side up to its call of the celery side: accepts exactly the requests whose groups have jobs, a priority and known ids; then each listed job has the group, priority, flag and delay (0 if bare or null) of its last entry in the request, unlisted jobs of the workflow are released, all others are unchanged, and the workflow has exactly the new groups. A refusal changes nothing. |
| `Assignment.ControlStore.AssignGroup` | batch_scheduler/logic/scheduler_workflow.py:435-496 | One group keeps integrity after each statement and is refused exactly for no jobs, no priority or an unknown job. |
| `Assignment.LastListingIs` | batch_scheduler/logic/scheduler_workflow.py:435-496 | The last mention of a job says the priority and flag of its group and the delay of its own entry, 0 for a bare id. |
| `Assignment.MentionedLast` | batch_scheduler/logic/scheduler_workflow.py:435-496 | A job that is mentioned is mentioned last in one place. |
| `Assignment.RowsAreSet` | batch_scheduler/logic/scheduler_workflow.py:481-519 | The rows an accepted request leaves, in terms of the request: settings of the last entry for listed jobs, the reset values for released ones, all others as they were. |
| `Assignment.GroupsAreSet` | batch_scheduler/logic/scheduler_workflow.py:450-464 | The groups of the workflow are the requested ones, each with its priority and flag. |
| `Assignment.AllSet` | batch-celery/celerytasks/views.py:1836-1896 | The settings a request carried out in full leaves, in the same terms; a null delay stays null on the celery side. |
| `Assignment.ReplyIs` | batch-celery/celerytasks/views.py:1820-1886 | The reply, in terms of the request: done if every group has known jobs, a priority in 1..100, a flag and accepted rules; stopped at the first other group if it has no jobs, no or zero priority, or an unknown job; raised otherwise. |
| `Assignment.ControlStore.UpdateJob` | batch_scheduler/logic/scheduler_workflow.py:481-496 | The update of one job keeps every job's group existing and in the job's workflow. |
| `Assignment.ControlStore.DeleteGroups` | batch_scheduler/logic/scheduler_workflow.py:523-537 | Deleting groups no job points to keeps that integrity. |
| `Assignment.ControlStore.DeleteWorkflow` | batch_scheduler/logic/scheduler_jobs.py:604-668 | Deletes the groups of the workflow and takes its jobs out of it, keeping integrity between the two statements, and reports whether there was a group. |
| `Assignment.AssignmentDone` | batch_scheduler/logic/scheduler_workflow.py:500-537 | Writing the mentions in order, releasing and deleting amounts to the last mention of each job. |
| `Assignment.OnlyNewGroups` | batch_scheduler/logic/scheduler_workflow.py:500-537 | After the release, no job is left in an old group of the workflow, so the old groups can be deleted. |
| `Assignment.SettingStore.ProcessGroup` | batch-celery/celerytasks/views.py:1821-1886 | Processes a group in any row order, stops without error effect on a missing field or unknown job, raises on a null flag, a priority outside 1..100 or a refused rule. |
| `Assignment.SettingStore.ProcessJobs` | batch-celery/celerytasks/views.py:1813-1904 | A full request is processed and unlisted jobs released; an early return commits the groups before it and releases nothing; an exception undoes all. |
| `Assignment.ProcessedNext` | batch-celery/celerytasks/views.py:1838-1870 | Reading a group into a delay dictionary and updating rows in any order is the same as writing its mentions in order. |
| `Assignment.DoneExactly` | batch-celery/celerytasks/views.py:1820-1896 | A request is accepted by the control side and processed in full by the celery side exactly if it is valid: non-empty groups of known jobs, priorities 1..100, flags given, rules accepted. |
| `Assignment.StoresAgree` | batch-celery/celerytasks/views.py:1820-1896 | After a request carried out on both sides, a job known to both stores is in the workflow in both or in neither, with the same priority, flag and delay, and has been released in both or in neither. |
| `Assignment.ZeroPrioritySplits` | batch-celery/celerytasks/views.py:1827-1834 | A request with a job last listed with priority 0 is never carried out on the celery side: if that side raises, neither store changes; if it stops, the job differs between the stores whatever it was before. |
| `Assignment.ZeroNotStored` | batch-celery/celerytasks/views.py:1827-1834 | The celery side never stores priority 0. |
| `Assignment.DeletedAlike` | batch-celery/celerytasks/views.py:2050-2053 | Deleting a workflow leaves a job alike in both stores exactly if its ignore flag was off. |
| `Assignment.SettingStore.DeleteWorkflow` | batch-celery/celerytasks/views.py:2049-2053 | No job is left in the workflow; its jobs have no workflow, no priority and the flag off but keep their delay; all others are unchanged. |
| `Assignment.ControlStore.AssignListed` | batch_scheduler/logic/scheduler_workflow.py:479-496 | The jobs of a group are updated in order, keeping integrity, until one is not there. |
| `Assignment.ControlStore.AssignGroups` | batch_scheduler/logic/scheduler_workflow.py:435-496 | The loop over the groups writes every mention in order and collects the listed ids. |
| `Assignment.ControlStore.ReleaseUnlisted` | batch_scheduler/logic/scheduler_workflow.py:500-519 | Releases exactly the jobs of the workflow that are not listed, keeping integrity. |
| `Assignment.ControlStore.CreateGroup` | batch_scheduler/logic/scheduler_workflow.py:450-464 | A new group row keeps integrity. |
| `Assignment.ControlStore.UnsetGroups` | batch_scheduler/logic/scheduler_jobs.py:634-652 | Takes the jobs out of the groups, keeping integrity. |
| `Assignment.SettingStore.SaveRows` | batch-celery/celerytasks/views.py:1861-1886 | Saves the rows of a group in any order; raises exactly on a null flag, a priority outside 1..100 or a refused rule. |
| `Assignment.SettingStore.ProcessGroups` | batch-celery/celerytasks/views.py:1820-1886 | The loop over the groups stops at the first group that is not in order. |
| `Filters.CompiledMeaning` | batch_scheduler/utils/postgres_helper.py:94-158 | For every filter that compiles, the conditions evaluate under three-valued logic to what the normalised filter says. |
| `Filters.ShapedMeaning` | batch_scheduler/utils/postgres_helper.py:94-158 | A filter with one test per column under or_ and one entry per dictionary in a list is compiled to what it says. |
| `Filters.FaithfulExactly` | batch_scheduler/utils/postgres_helper.py:98-108 | Exactly the filters of that shape are compiled to what they say whatever their tests. |
| `Filters.Broken` | batch_scheduler/utils/postgres_helper.py:112-125 | For any other shape there are tests under which the filter says no and its conditions evaluate to yes. |
| `Filters.CompilesExactly` | batch_scheduler/utils/postgres_helper.py:94-158 | A list of parameters compiles exactly if every test it compiles has a known column and an operator that is an equality, an ordering of something not null, or a method of the column, and no operator map or dictionary of a list is empty. |
| `Filters.TestTaken` | batch_scheduler/utils/postgres_helper.py:112-125 | Which tests are taken, operator by operator, and which error the others give. |
| `Filters.OperatorsOnNumbers` | batch_scheduler/utils/postgres_helper.py:16-25 | On numbers each operator name means its comparison. |
| `Filters.OperatorsOnNull` | batch_scheduler/utils/postgres_helper.py:16-25 | What each operator says about a null. |
| `Filters.OperatorsOnLists` | batch_scheduler/utils/postgres_helper.py:112-125 | What `in_` and `not_in` say, with nulls about. |
| `Filters.TransformFilterParameter` | batch_scheduler/utils/postgres_helper.py:94-126 | The conditions of one parameter, or the first error in it. |
| `Filters.ParseFilterParams` | batch_scheduler/utils/postgres_helper.py:128-158 | The conditions of a list of parameters, or the first error. |
| `Filters.CompiledTests` | batch_scheduler/utils/postgres_helper.py:109-124 | An operator map compiles exactly if each of its tests does, to one condition per test. |
| `Queries.OrderOfCalls` | batch_scheduler/utils/query_builder.py:84-188 | With at most one call of each kind, building never raises and neither the query nor the counted query depends on the order of the calls. |
| `Queries.BuiltQuery` | batch_scheduler/utils/query_builder.py:84-188 | A query that is built has exactly the lists last given, each in its place; the counted query has the same joins, options and filters, and neither columns nor an order. |
| `Queries.BuildRaises` | batch_scheduler/utils/query_builder.py:43-82 | Building raises exactly if the last list of some kind is nothing although an earlier call gave one. |
| `Queries.AfterMeaning` | batch_scheduler/utils/query_builder.py:84-150 | The builder holds the last list of each kind, and its plan every kind some call gave a list for. |
| `Queries.QueryBuilder.Build` | batch_scheduler/utils/query_builder.py:167-176 | Runs the planned steps in order; the query is the one the fields describe, or an error. |
| `Queries.QueryBuilder.Count` | batch_scheduler/utils/query_builder.py:178-188 | The same without columns and sorting. |
| `Queries.CountExactly` | batch_scheduler/utils/postgres_helper.py:313-338 | The count is the number of rows of the built query; it is the number of results read exactly if columns are selected or no record is in two rows. |
| `Queries.ToOneCount` | batch_scheduler/utils/postgres_helper.py:313-338 | With to-one joins the count is the number of results read. |
| `Queries.KeyJoins` | batch_scheduler/logic/scheduler_jobs.py:206-211 | A join on a unique key matches at most one record, and none exactly if no key equals the reference. |
| `Queries.TotalWithoutJoins` | batch_scheduler/logic/scheduler_jobs.py:331-354 | Leaving out to-one joins that filters and other joins do not look at keeps the rows, up to the columns they add. |
| `Queries.TotalIsAllPages` | batch_scheduler/logic/scheduler_jobs.py:338-354 | The query's rows over all pages are as many as the total counted without those joins. |
| `Queries.TotalIsRecords` | batch_scheduler/logic/scheduler_jobs.py:338-390 | When the joins the filters look at are to-one as well, the records left on all pages after keying each page by record are as many as the total. |
| `Queries.ToOneNoRepeats` | batch_scheduler/logic/scheduler_jobs.py:206-211 | With to-one joins no record is in two rows. |
| `Queries.PageIsWindow` | batch_scheduler/utils/postgres_helper.py:276-290 | The row-number path and the offset path return the same rows for every page, wherever the threshold is. |
| `Queries.BetweenIsWindow` | batch_scheduler/utils/postgres_helper.py:278-288 | Filtering numbered rows by a range is slicing them. |
| `Queries.PagesTile` | batch_scheduler/utils/postgres_helper.py:276-290 | The first pages, one after the other, are a prefix of the rows: no gap and no repeat. |
| `Queries.PagesHoldAll` | batch_scheduler/utils/postgres_helper.py:276-290 | Enough pages hold all rows. |
| `Queries.RestartServers` | batch_scheduler/logic/scheduler_job_servers.py:336-415 | The paging loop ends, having attempted every server once in query order, whatever attempts fail. |
| `Queries.WhereExactly` | batch_scheduler/utils/query_builder.py:34-46 | The filters keep the rows on which every condition is true, in their order. |
| `Queries.AllStopped` | batch_scheduler/logic/scheduler_job_servers.py:336-415 | Whatever fails, every server is stopped exactly once, in query order. |
| `Queries.QueryBuilder.Perform` | batch_scheduler/utils/query_builder.py:34-82 | A planned step adds its list to the query or fails if the list is nothing; an unplanned step changes nothing. |
| `Queries.QueryBuilder.SetFilters` | batch_scheduler/utils/query_builder.py:84-97 | Stores the list and plans the step if it is not empty. |
| `Queries.QueryBuilder.SetSortBy` | batch_scheduler/utils/query_builder.py:99-112 | The same for the sort list. |
| `Queries.QueryBuilder.SetOuterJoins` | batch_scheduler/utils/query_builder.py:114-129 | The same for the joins. |
| `Queries.QueryBuilder.SetQueryOptions` | batch_scheduler/utils/query_builder.py:131-144 | The same for the options. |
| `Queries.QueryBuilder.SetColumns` | batch_scheduler/utils/query_builder.py:146-156 | Stores the columns; they are not a step. |
| `Queries.AttemptServer` | batch_scheduler/logic/scheduler_job_servers.py:370-413 | Stop, then copy and start or restart; the first action that fails ends the attempt on its server. |
| `RunLogs.LookupMeaning` | batch_scheduler/logic/scheduler_job_run_logs.py:295-308 | The compiled lookup selects exactly the logs of the job whose operation is given and not OUTDATED and that have a status or a start date. |
| `RunLogs.NewestIs` | batch_scheduler/logic/scheduler_job_run_logs.py:295-309 | Ordering by descending id and taking the first row gives the newest such log, or none. |
| `RunLogs.Store.Refresh` | batch_scheduler/logic/scheduler_job_run_logs.py:320-345 | Afterwards the job has exactly one index row, pointing to its newest relevant log or to nothing; other jobs' rows are unchanged. |
| `RunLogs.Store.CreateLogs` | batch_scheduler/logic/scheduler_job_run_logs.py:132-158 | A create adds the drafts under fresh ids with the job, and changes no other log; the logged job is indexed correctly and every other job that was still is; an error changes nothing. |
| `RunLogs.Store.UpdateLogs` | batch_scheduler/logic/scheduler_job_run_logs.py:167-231 | An update sets exactly the given columns of exactly the logs with the task name or id, and the given job is indexed correctly; no selected log or an unknown job is an error that changes nothing. |
| `RunLogs.UpdateExactly` | batch_scheduler/logic/scheduler_job_run_logs.py:172-231 | Because logs are selected whichever job they belong to, an update leaves the other jobs indexed correctly, whatever it sets, exactly if the logs it selects from them are older than the ones their rows point to. |
| `RunLogs.Store.Find` | batch_scheduler/logic/scheduler_job_last_log.py:26-42 | The index row of a job, if there is one. |
| `RunLogs.Store.AddRow` | batch_scheduler/logic/scheduler_job_last_log.py:45-76 | A job without a row gets one; other jobs' rows are unchanged. |
| `RunLogs.Store.SetRow` | batch_scheduler/logic/scheduler_job_last_log.py:79-100 | The row of a job is replaced; other jobs' rows are unchanged. |
| `RecurrenceRule.RoundTrip` | batch-celery/celerytasks/utils.py:188-232 | Printing the dictionary of an accepted rule as KEY=value parts, in any order, and validating again gives the same dictionary, on every side. |
| `RecurrenceRule.ReadExactly` | batch-celery/celerytasks/utils.py:198-206 | The components can be read exactly if each has an = and a known key before it. |
| `RecurrenceRule.LastDuplicateWins` | batch-celery/celerytasks/utils.py:198-206 | The dictionary has the keys of the components, each with the value of its last occurrence. |
| `RecurrenceRule.CutMeaning` | batch-celery/celerytasks/utils.py:199-202 | A component is cut at its first =, so values may contain more of them. |
| `RecurrenceRule.SplitParts` | batch-celery/celerytasks/utils.py:190-191 | Splitting at ; loses nothing and leaves no ; in a part. |
| `RecurrenceRule.ValidateCelery` | batch-celery/celerytasks/utils.py:188-232 | Accepts exactly the sound rules and returns their dictionary with keys in lower case. |
| `RecurrenceRule.ValidateControl` | batch_scheduler/utils/common_func.py:262-313 | The control service's validator, with keys and frequency as written. |
| `RecurrenceRule.ControlExactly` | batch_scheduler/utils/common_func.py:288-290 | The control side accepts exactly the rules a celery side accepts whose frequency is written in upper case. |
| `RecurrenceRule.SameEntries` | batch-worker/celerytasks/utils.py:359-395 | A rule both sides accept has the same entries on both, up to the case of the keys. |
| `RecurrenceRule.LowerNames` | batch-celery/celerytasks/utils.py:198-206 | The names of the fourteen parts on the celery sides. |
| `RecurrenceRule.AcceptedExactly` | batch-celery/celerytasks/utils.py:188-232 | A rule is accepted exactly if its last component is not empty, each component is one of the fourteen parts and an =, a frequency is one of the seven, a given interval is positive, and a given end a date. |
| `RecurrenceRule.FillDictionary` | batch-celery/celerytasks/utils.py:197-206 | The loop fills the dictionary component by component, or refuses. |

## Left out

- Filters.FaithfulExactly: is stated for filters with known columns and no empty nesting; for the others only the direction from the shape to the meaning (`Filters.ShapedMeaning`) holds for all, because an empty list in the wrong place can make a misread filter mean the same.
- Filters.CompiledMeaning: the operators `ilike`, `like`, `between` and other column methods are an unspecified function of the operands, and text is ordered by an unspecified function, since collation is the database's.
- Queries.PagesTile: assumes that two queries see the same rows in the same order; with equal sort keys or concurrent writes the database does not promise that.
- Recovery.SecondPassIdle: needs the first pass to have had every failed log accepted and every update delivered; otherwise `Recovery.SecondPassExact` says what a second pass changes.
- JobLifecycle.RunCountBounded: starts from a state within its bound and leaves out the updates of `JobLifecycle.SlipsThrough`, which break it.
- Assignment.StoresAgree: is about each job known to both stores; the two services share no table of jobs, and a null ignore flag, which the control side stores and reads as off, is refused by the celery side.
- Assignment.AssignJobToWorkflow: takes the workflow as existing, and leaves out its own row (latest status and next run date) and the rows of past runs.
- UnlockedCreation.UnlockedCreateExact: is about an enabled entry under a dated name, as the worker makes it for an enabled job; the entry of a disabled job is created disabled, and `UnlockedCreation.OneEnabledForever` says of the state after it when two can be enabled.
- WorkflowScheduling.CopiesAgree: takes the limits as equal in both copies and the maximal interval as at least 1, as the constructors set them.
- Broker messages that arrive for a run after recovery has failed it: recovery ends the old process, and what a re-delivered message does to a FAILED run is not modelled.
- Date arithmetic of recurrence rules, time zones, and the guessing of date formats: an abstract occurrence function stands for them.
- The decision function for a job's current state and the fields copied along with it: a table of cases without a law of its own; the state it stores in the index row is a parameter.
- The scheduling of the next workflow run after a run, and the TaskDetail rows created along with entries: further rows with the same shape as the entry modelled.
- The text of log bodies, tracing, HTTP, SSH and subprocess calls: input and output. A call is a parameter that says whether it succeeded.
- Users, login, tokens and both front ends: counters and library calls.
