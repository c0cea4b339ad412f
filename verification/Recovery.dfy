/** Crash recovery of the worker: marker files for running tasks and workflow runs, and the
    pass at worker start that reports what the markers say was interrupted. Any number of
    runs of WorkflowRun advance side by side; a crash is a point at which nothing more of the
    old process happens, so safety after a crash is safety of recovery in every state. */
module Recovery {
  import opened Wrappers
  import opened WorkflowScheduling
  import R = WorkflowRun

  type RunId = string
  type WorkflowId = string
  type FileName = string   // one task marker per celery task id
  type LogId = nat

  datatype Status = RUNNING | SUCCESS | FAILED | SKIPPED

  datatype TaskMarker = TaskMarker(logId: LogId, run: Option<RunId>, workflow: Option<WorkflowId>)

  /** The scheduler's run rows and job logs, and the marker files on the worker's disk. */
  datatype Ledger = Ledger(
    status: map<RunId, Status>,
    logs: map<RunId, nat>,                 // job logs that belong to a run
    failedLogs: set<LogId>,                // logs accepted as failed by recovery
    runMarkers: map<RunId, WorkflowId>,
    taskMarkers: map<FileName, TaskMarker>)

  function LogCount(l: Ledger, r: RunId): nat {
    if r in l.logs then l.logs[r] else 0
  }

  /** update_workflow_run: a run without any job log is closed as SKIPPED. */
  function ClosedAs(l: Ledger, r: RunId, wanted: Status): Status {
    if LogCount(l, r) == 0 && (wanted == FAILED || wanted == SUCCESS) then SKIPPED else wanted
  }

  function Close(l: Ledger, r: RunId, wanted: Status): Ledger {
    if r in l.status then l.(status := l.status[r := ClosedAs(l, r, wanted)]) else l
  }

  // ---------------------------------------------------------------- recovery, as a whole

  /** The runs named by accepted task markers. */
  function NamedRuns(l: Ledger, accepted: set<FileName>): set<RunId> {
    set f | f in l.taskMarkers && f in accepted && l.taskMarkers[f].run.Some? && l.taskMarkers[f].workflow.Some?
      :: l.taskMarkers[f].run.value
  }

  /** The same with the workflow each marker names; the run markers of these pairs are kept. */
  function NamedPairs(l: Ledger, accepted: set<FileName>): set<(WorkflowId, RunId)> {
    set f | f in l.taskMarkers && f in accepted && l.taskMarkers[f].run.Some? && l.taskMarkers[f].workflow.Some?
      :: (l.taskMarkers[f].workflow.value, l.taskMarkers[f].run.value)
  }

  function FailAll(l: Ledger, runs: set<RunId>): map<RunId, Status> {
    map r | r in l.status :: if r in runs then ClosedAs(l, r, FAILED) else l.status[r]
  }

  /** `accepted` are the files whose rows exist and whose failed log the scheduler accepts;
      `delivered` are the runs whose status update reaches the scheduler. */
  function AfterJobs(l: Ledger, accepted: set<FileName>, delivered: set<RunId>): Ledger {
    l.(status := FailAll(l, NamedRuns(l, accepted) * delivered),
       failedLogs := l.failedLogs + (set f | f in l.taskMarkers && f in accepted :: l.taskMarkers[f].logId),
       taskMarkers := l.taskMarkers - accepted)
  }

  function AfterWorkflows(l: Ledger, updated: set<(WorkflowId, RunId)>, delivered: set<RunId>): Ledger {
    var gone := set r | r in l.runMarkers && (l.runMarkers[r], r) !in updated;
    l.(status := FailAll(l, gone * delivered), runMarkers := l.runMarkers - gone)
  }

  function Recovered(l: Ledger, accepted: set<FileName>, delivered: set<RunId>): Ledger {
    AfterWorkflows(AfterJobs(l, accepted, delivered), NamedPairs(l, accepted), delivered)
  }

  /** The runs a pass reports as failed. */
  function Touched(l: Ledger, accepted: set<FileName>): set<RunId> {
    NamedRuns(l, accepted) + l.runMarkers.Keys
  }

  /** A pass closes exactly the runs with a marker, and changes the status of no other. */
  lemma RecoveredStatus(l: Ledger, accepted: set<FileName>, delivered: set<RunId>)
    ensures var l' := Recovered(l, accepted, delivered);
      && l'.logs == l.logs
      && l'.status.Keys == l.status.Keys
      && forall r :: r in l.status ==>
           (l'.status[r] == if r in Touched(l, accepted) && r in delivered then ClosedAs(l, r, FAILED) else l.status[r])
  {
    var l1 := AfterJobs(l, accepted, delivered);
    var l2 := Recovered(l, accepted, delivered);
    forall r | r in l.status
      ensures l2.status[r] ==
        if r in Touched(l, accepted) && r in delivered then ClosedAs(l, r, FAILED) else l.status[r]
    {
      assert ClosedAs(l1, r, FAILED) == ClosedAs(l, r, FAILED);
      if r in l.runMarkers && (l.runMarkers[r], r) in NamedPairs(l, accepted) {
        assert r in NamedRuns(l, accepted);
      }
    }
  }

  /** A task marker goes exactly when its failed log was accepted, and that log is on record. */
  lemma TaskMarkersGo(l: Ledger, accepted: set<FileName>, delivered: set<RunId>, f: FileName)
    requires f in l.taskMarkers
    ensures var l' := Recovered(l, accepted, delivered);
      && (f !in l'.taskMarkers <==> f in accepted)
      && (f !in l'.taskMarkers ==> l.taskMarkers[f].logId in l'.failedLogs)
      && (f in l'.taskMarkers ==> l'.taskMarkers[f] == l.taskMarkers[f])
  {}

  /** A run marker stays exactly when an accepted task marker named the same run and workflow. */
  lemma RunMarkersStay(l: Ledger, accepted: set<FileName>, delivered: set<RunId>, r: RunId)
    requires r in l.runMarkers
    ensures r in Recovered(l, accepted, delivered).runMarkers <==> (l.runMarkers[r], r) in NamedPairs(l, accepted)
  {}

  /** When a second pass changes a status: a marker left over from the first names the run,
      the update gets through, and the status is not already what recovery writes. */
  lemma SecondPassExact(l: Ledger, a1: set<FileName>, d1: set<RunId>, a2: set<FileName>, d2: set<RunId>, r: RunId)
    requires r in l.status
    ensures var l1 := Recovered(l, a1, d1);
      var l2 := Recovered(l1, a2, d2);
      l2.status[r] != l1.status[r] <==>
        r in Touched(l1, a2) && r in d2 && l1.status[r] != ClosedAs(l, r, FAILED)
  {
    RecoveredStatus(l, a1, d1);
    RecoveredStatus(Recovered(l, a1, d1), a2, d2);
  }

  /** With the scheduler reachable in the first pass, a second pass changes no status. */
  lemma SecondPassIdle(l: Ledger, a1: set<FileName>, d1: set<RunId>, a2: set<FileName>, d2: set<RunId>)
    requires l.taskMarkers.Keys <= a1 && Touched(l, a1) <= d1
    ensures Recovered(Recovered(l, a1, d1), a2, d2).status == Recovered(l, a1, d1).status
  {
    var l1 := Recovered(l, a1, d1);
    RecoveredStatus(l, a1, d1);
    RecoveredStatus(l1, a2, d2);
    assert l1.taskMarkers == map[];
    forall r | r in l1.status ensures Recovered(l1, a2, d2).status[r] == l1.status[r] {
      SecondPassExact(l, a1, d1, a2, d2, r);
      assert r in Touched(l1, a2) ==> r in l.runMarkers;
    }
  }

  // ---------------------------------------------------------------- recovery, file by file

  lemma FailMore(l: Ledger, runs: set<RunId>, r: RunId)
    ensures FailAll(l, runs + {r}) == Close(l.(status := FailAll(l, runs)), r, FAILED).status
  {}

  lemma NamedStep(l: Ledger, done: set<FileName>, f: FileName)
    requires f in l.taskMarkers
    ensures var m := l.taskMarkers[f];
      var named := m.run.Some? && m.workflow.Some?;
      && NamedRuns(l, done + {f}) == NamedRuns(l, done) + (if named then {m.run.value} else {})
      && NamedPairs(l, done + {f}) == NamedPairs(l, done) + (if named then {(m.workflow.value, m.run.value)} else {})
  {}

  /** Handling one more file. */
  lemma JobsStep(l: Ledger, done: set<FileName>, delivered: set<RunId>, f: FileName)
    requires f in l.taskMarkers
    ensures var m := l.taskMarkers[f];
      var l1 := AfterJobs(l, done, delivered);
      var report := m.run.Some? && m.workflow.Some? && m.run.value in delivered;
      var l2 := if report then Close(l1, m.run.value, FAILED) else l1;
      AfterJobs(l, done + {f}, delivered)
        == l2.(failedLogs := l1.failedLogs + {m.logId}, taskMarkers := l1.taskMarkers - {f})
  {
    var m := l.taskMarkers[f];
    var l1 := AfterJobs(l, done, delivered);
    var l3 := AfterJobs(l, done + {f}, delivered);
    NamedStep(l, done, f);
    var runs := NamedRuns(l, done) * delivered;
    if m.run.Some? && m.workflow.Some? && m.run.value in delivered {
      FailMore(l, runs, m.run.value);
      assert NamedRuns(l, done + {f}) * delivered == runs + {m.run.value};
      assert l3.status == Close(l1, m.run.value, FAILED).status;
    } else {
      assert NamedRuns(l, done + {f}) * delivered == runs;
    }
    assert l3.taskMarkers == l1.taskMarkers - {f};
    assert l3.failedLogs == l1.failedLogs + {m.logId};
  }

  /** What update_jobs does with one file. */
  function JobFile(l: Ledger, f: FileName, accepted: set<FileName>, delivered: set<RunId>): Ledger {
    if f !in l.taskMarkers || f !in accepted then l
    else
      var m := l.taskMarkers[f];
      var reached := m.run.Some? && m.workflow.Some? && m.run.value in delivered;
      var l1 := if reached then Close(l, m.run.value, FAILED) else l;
      l1.(failedLogs := l1.failedLogs + {m.logId}, taskMarkers := l1.taskMarkers - {f})
  }

  function JobFiles(l: Ledger, files: seq<FileName>, accepted: set<FileName>, delivered: set<RunId>): Ledger {
    if files == [] then l
    else JobFile(JobFiles(l, files[..|files| - 1], accepted, delivered), files[|files| - 1], accepted, delivered)
  }

  function Listed<T>(files: seq<T>): set<T> {
    set f | f in files
  }

  lemma ListedLast<T>(files: seq<T>)
    requires files != []
    ensures Listed(files) == Listed(files[..|files| - 1]) + {files[|files| - 1]}
  {
    assert files == files[..|files| - 1] + [files[|files| - 1]];
  }

  lemma {:induction false} JobFilesAre(l: Ledger, files: seq<FileName>, accepted: set<FileName>, delivered: set<RunId>)
    requires Listed(files) <= l.taskMarkers.Keys
    ensures JobFiles(l, files, accepted, delivered) == AfterJobs(l, Listed(files) * accepted, delivered)
    decreases |files|
  {
    if files == [] {
      assert AfterJobs(l, {}, delivered) == l;
    } else {
      var f, before := files[|files| - 1], files[..|files| - 1];
      ListedLast(files);
      JobFilesAre(l, before, accepted, delivered);
      var done := Listed(before) * accepted;
      if f in accepted {
        JobsStep(l, done, delivered, f);
        assert Listed(files) * accepted == done + {f};
        if f in done {
          assert done + {f} == done;
        }
      } else {
        assert Listed(files) * accepted == done;
      }
    }
  }

  /** What update_workflows does with one file. */
  function RunFile(l: Ledger, r: RunId, updated: set<(WorkflowId, RunId)>, delivered: set<RunId>): Ledger {
    if r !in l.runMarkers || (l.runMarkers[r], r) in updated then l
    else
      var l1 := if r in delivered then Close(l, r, FAILED) else l;
      l1.(runMarkers := l1.runMarkers - {r})
  }

  function RunFiles(l: Ledger, files: seq<RunId>, updated: set<(WorkflowId, RunId)>, delivered: set<RunId>): Ledger {
    if files == [] then l
    else RunFile(RunFiles(l, files[..|files| - 1], updated, delivered), files[|files| - 1], updated, delivered)
  }

  /** AfterWorkflows with only the files in `done` handled. */
  function WorkflowsUpTo(
    l: Ledger, done: set<RunId>, updated: set<(WorkflowId, RunId)>, delivered: set<RunId>): Ledger
  {
    var gone := set r | r in l.runMarkers && r in done && (l.runMarkers[r], r) !in updated;
    l.(status := FailAll(l, gone * delivered), runMarkers := l.runMarkers - gone)
  }

  lemma RunsStep(l: Ledger, done: set<RunId>, updated: set<(WorkflowId, RunId)>, delivered: set<RunId>, r: RunId)
    requires r in l.runMarkers && r !in done
    ensures WorkflowsUpTo(l, done + {r}, updated, delivered)
      == RunFile(WorkflowsUpTo(l, done, updated, delivered), r, updated, delivered)
  {
    var gone := set q | q in l.runMarkers && q in done && (l.runMarkers[q], q) !in updated;
    var gone' := set q | q in l.runMarkers && q in done + {r} && (l.runMarkers[q], q) !in updated;
    if (l.runMarkers[r], r) in updated {
      assert gone' == gone;
    } else {
      assert gone' == gone + {r};
      assert gone' * delivered == gone * delivered + if r in delivered then {r} else {};
      FailMore(l, gone * delivered, r);
      assert l.runMarkers - gone' == (l.runMarkers - gone) - {r};
    }
  }

  lemma {:induction false} RunFilesAre(l: Ledger, files: seq<RunId>, updated: set<(WorkflowId, RunId)>,
      delivered: set<RunId>)
    requires Listed(files) <= l.runMarkers.Keys && Distinct(files)
    ensures RunFiles(l, files, updated, delivered) == WorkflowsUpTo(l, Listed(files), updated, delivered)
    decreases |files|
  {
    if files == [] {
      assert WorkflowsUpTo(l, {}, updated, delivered) == l;
    } else {
      ListedLast(files);
      RunFilesAre(l, files[..|files| - 1], updated, delivered);
      RunsStep(l, Listed(files[..|files| - 1]), updated, delivered, files[|files| - 1]);
    }
  }

  function Pairs(updated: map<WorkflowId, seq<RunId>>): set<(WorkflowId, RunId)> {
    set w, r | w in updated && r in updated[w] :: (w, r)
  }

  ghost predicate Distinct<T>(s: seq<T>) {
    forall i, j :: 0 <= i < j < |s| ==> s[i] != s[j]
  }

  lemma AllNamed(l: Ledger, accepted: set<FileName>)
    ensures NamedPairs(l, accepted * l.taskMarkers.Keys) == NamedPairs(l, accepted)
  {}

  lemma AllJobs(l: Ledger, accepted: set<FileName>, delivered: set<RunId>)
    ensures AfterJobs(l, l.taskMarkers.Keys * accepted, delivered) == AfterJobs(l, accepted, delivered)
  {
    var done := l.taskMarkers.Keys * accepted;
    assert NamedRuns(l, done) == NamedRuns(l, accepted);
    assert l.taskMarkers - done == l.taskMarkers - accepted;
  }

  lemma AllRuns(l: Ledger, updated: set<(WorkflowId, RunId)>, delivered: set<RunId>)
    ensures WorkflowsUpTo(l, l.runMarkers.Keys, updated, delivered) == AfterWorkflows(l, updated, delivered)
  {
    var gone := set r | r in l.runMarkers && (l.runMarkers[r], r) !in updated;
    assert gone == set r | r in l.runMarkers && r in l.runMarkers.Keys && (l.runMarkers[r], r) !in updated;
  }

  function AddPair(updated: map<WorkflowId, seq<RunId>>, w: WorkflowId, r: RunId)
    : (updated': map<WorkflowId, seq<RunId>>)
    ensures Pairs(updated') == Pairs(updated) + {(w, r)}
  {
    var before := if w in updated then updated[w] else [];
    assert forall q :: q in before + [r] <==> q in before || q == r;
    updated[w := before + [r]]
  }

  function Reported(markers: map<FileName, TaskMarker>, files: seq<FileName>,
      accepted: set<FileName>): map<WorkflowId, seq<RunId>>
  {
    if files == [] then map[]
    else
      var f, before := files[|files| - 1], Reported(markers, files[..|files| - 1], accepted);
      if f in accepted && f in markers && markers[f].run.Some? && markers[f].workflow.Some? then
        AddPair(before, markers[f].workflow.value, markers[f].run.value)
      else before
  }

  lemma {:induction false} ReportedPairs(l: Ledger, files: seq<FileName>, accepted: set<FileName>)
    requires Listed(files) <= l.taskMarkers.Keys
    ensures Pairs(Reported(l.taskMarkers, files, accepted)) == NamedPairs(l, accepted * Listed(files))
    decreases |files|
  {
    if files != [] {
      var f, before := files[|files| - 1], files[..|files| - 1];
      ListedLast(files);
      ReportedPairs(l, before, accepted);
      if f in accepted {
        NamedStep(l, accepted * Listed(before), f);
        assert accepted * Listed(files) == accepted * Listed(before) + {f};
      } else {
        assert accepted * Listed(files) == accepted * Listed(before);
      }
    }
  }

  /** The worker host at start-up; its HTTP calls to the scheduler change the scheduler's rows. */
  class WorkerHost {
    var status: map<RunId, Status>
    var logs: map<RunId, nat>
    var failedLogs: set<LogId>
    var runMarkers: map<RunId, WorkflowId>
    var taskMarkers: map<FileName, TaskMarker>

    ghost function View(): Ledger
      reads this
    {
      Ledger(status, logs, failedLogs, runMarkers, taskMarkers)
    }

    /** The scheduler's handler of a run update. A known run with a job log gets the wanted status; a
        verdict for one without is stored as SKIPPED; an unknown run is ignored. */
    method UpdateWorkflowRun(r: RunId, wanted: Status)
      modifies this`status
      ensures View() == Close(old(View()), r, wanted)
      ensures r in old(status) && r in logs && 0 < logs[r] ==> status == old(status)[r := wanted]
      ensures r in old(status) && (r !in logs || logs[r] == 0) ==>
        status == old(status)[r := if wanted == RUNNING then RUNNING else SKIPPED]
      ensures r !in old(status) ==> status == old(status)
    {
      var count := if r in logs then logs[r] else 0;
      var schemaStatus := wanted;
      if count == 0 && (schemaStatus == FAILED || schemaStatus == SUCCESS) {
        schemaStatus := SKIPPED;
      }
      if r in status {
        status := status[r := schemaStatus];
      }
    }

    method HandleJobFile(f: FileName, accepted: set<FileName>, delivered: set<RunId>)
      requires f in taskMarkers && f in accepted
      modifies this`status, this`failedLogs, this`taskMarkers
      ensures View() == JobFile(old(View()), f, accepted, delivered)
    {
      var m := taskMarkers[f];
      if m.run.Some? && m.workflow.Some? && m.run.value in delivered {
        UpdateWorkflowRun(m.run.value, FAILED);
      }
      failedLogs := failedLogs + {m.logId};
      taskMarkers := taskMarkers - {f};
    }

    /** update_jobs over the files a directory listing yields; `updated` collects the runs it
        reported, by workflow. */
    method UpdateJobs(files: seq<FileName>, accepted: set<FileName>, delivered: set<RunId>)
      returns (updated: map<WorkflowId, seq<RunId>>)
      requires Distinct(files) && Listed(files) == taskMarkers.Keys
      modifies this`status, this`failedLogs, this`taskMarkers
      ensures View() == JobFiles(old(View()), files, accepted, delivered)
      ensures updated == Reported(old(taskMarkers), files, accepted)
    {
      updated := map[];
      for n := 0 to |files|
        invariant View() == JobFiles(old(View()), files[..n], accepted, delivered)
        invariant forall i :: n <= i < |files| ==>
          files[i] in taskMarkers && files[i] in old(taskMarkers) && taskMarkers[files[i]] == old(taskMarkers)[files[i]]
        invariant updated == Reported(old(taskMarkers), files[..n], accepted)
      {
        var f := files[n];
        assert files[..n + 1][..n] == files[..n];
        if f in accepted {
          var m := taskMarkers[f];
          HandleJobFile(f, accepted, delivered);
          if m.run.Some? && m.workflow.Some? {
            updated := AddPair(updated, m.workflow.value, m.run.value);
          }
        }
      }
      assert files[..|files|] == files;
    }

    method UpdateWorkflows(files: seq<RunId>, updated: map<WorkflowId, seq<RunId>>, delivered: set<RunId>)
      requires Distinct(files) && Listed(files) == runMarkers.Keys
      modifies this`status, this`runMarkers
      ensures View() == RunFiles(old(View()), files, Pairs(updated), delivered)
    {
      for n := 0 to |files|
        invariant View() == RunFiles(old(View()), files[..n], Pairs(updated), delivered)
        invariant forall i :: n <= i < |files| ==> files[i] in runMarkers
      {
        var r := files[n];
        assert files[..n + 1][..n] == files[..n];
        var w := runMarkers[r];
        assert (w, r) in Pairs(updated) <==> w in updated && r in updated[w];
        if w in updated && r in updated[w] {
          continue;
        }
        if r in delivered {
          UpdateWorkflowRun(r, FAILED);
        }
        runMarkers := runMarkers - {r};
      }
      assert files[..|files|] == files;
    }

    /** update_all_pending_local_tasks, run when the worker starts. The two listings are what
        the marker directories hold. */
    method UpdateAllPendingLocalTasks(
      taskFiles: seq<FileName>, runFiles: seq<RunId>, accepted: set<FileName>, delivered: set<RunId>)
      requires Distinct(taskFiles) && Listed(taskFiles) == taskMarkers.Keys
      requires Distinct(runFiles) && Listed(runFiles) == runMarkers.Keys
      modifies this`status, this`failedLogs, this`taskMarkers, this`runMarkers
      ensures View() == Recovered(old(View()), accepted, delivered)
    {
      ghost var l := View();
      JobFilesAre(l, taskFiles, accepted, delivered);
      AllJobs(l, accepted, delivered);
      ReportedPairs(l, taskFiles, accepted);
      AllNamed(l, accepted);
      var updated := UpdateJobs(taskFiles, accepted, delivered);
      RunFilesAre(View(), runFiles, Pairs(updated), delivered);
      AllRuns(View(), Pairs(updated), delivered);
      UpdateWorkflows(runFiles, updated, delivered);
    }
  }

  // ---------------------------------------------------------------- runs and recovery together

  datatype World = World(
    runs: map<RunId, R.Run>,
    workflowOf: map<RunId, WorkflowId>,
    ledger: Ledger,
    lost: set<RunId>,   // runs one of whose status updates did not reach the scheduler
    updated: set<(WorkflowId, RunId)>)   // reported by the recovery pass under way

  datatype Step =
    | Create(r: RunId, workflow: WorkflowId, orders: seq<seq<Task>>)  // the row is created RUNNING
    | Advance(r: RunId, step: R.Step, arrives: bool)
    | StartTask(f: FileName, m: TaskMarker)     // the log is created, then the marker written
    | EndTask(f: FileName, logged: bool)        // the marker goes when the last log call succeeded
    | Recover(accepted: set<FileName>, delivered: set<RunId>)  // a whole pass
    | StartPass                                 // or a pass file by file, which may be cut short
    | RecoverTask(f: FileName, reached: bool)
    | RecoverRun(r: RunId, reached: bool)

  const INITIAL := World(map[], map[], Ledger(map[], map[], {}, map[], map[]), {}, {})

  predicate Enabled(w: World, step: Step) {
    match step
    case Create(r, workflow, orders) => r !in w.runs && orders != []
    case Advance(r, s, arrives) => r in w.runs && R.Enabled(w.runs[r], s)
    case StartTask(f, m) => m.run.Some? ==> m.run.value in w.runs && 0 < w.runs[m.run.value].next
    case EndTask(f, logged) => f in w.ledger.taskMarkers
    case Recover(accepted, delivered) => true
    case StartPass => true
    case RecoverTask(f, _) => f in w.ledger.taskMarkers
    case RecoverRun(r, _) => r in w.ledger.runMarkers
  }

  function Apply(w: World, step: Step): World
    requires Enabled(w, step)
  {
    var l := w.ledger;
    match step
    case Create(r, workflow, orders) =>
      w.(runs := w.runs[r := R.Begin(orders)],
         workflowOf := w.workflowOf[r := workflow],
         ledger := l.(status := l.status[r := RUNNING], logs := l.logs[r := 0]))
    case Advance(r, s, arrives) =>
      var w' := w.(runs := w.runs[r := R.Apply(w.runs[r], s)]);
      if s.SaveMarker? && r in w.workflowOf then
        w'.(ledger := l.(runMarkers := l.runMarkers[r := w.workflowOf[r]]))
      else if s.Report? then
        var wanted := if w.runs[r].phase.v == R.SUCCESS then SUCCESS else FAILED;
        if arrives then w'.(ledger := Close(l, r, wanted)) else w'.(lost := w.lost + {r})
      else if s.DropMarker? then w'.(ledger := l.(runMarkers := l.runMarkers - {r}))
      else w'
    case StartTask(f, m) =>
      var l1 := if m.run.Some? then l.(logs := l.logs[m.run.value := LogCount(l, m.run.value) + 1]) else l;
      w.(ledger := l1.(taskMarkers := l1.taskMarkers[f := m]))
    case EndTask(f, logged) => if logged then w.(ledger := l.(taskMarkers := l.taskMarkers - {f})) else w
    case Recover(accepted, delivered) =>
      w.(ledger := Recovered(l, accepted, delivered), lost := w.lost + (Touched(l, accepted) - delivered))
    case StartPass => w.(updated := {})
    case RecoverTask(f, delivered) =>
      var m := l.taskMarkers[f];
      if m.run.Some? && m.workflow.Some? then
        var run := m.run.value;
        w.(ledger := JobFile(l, f, {f}, if delivered then {run} else {}),
           lost := w.lost + if delivered then {} else {run},
           updated := w.updated + {(m.workflow.value, run)})
      else w.(ledger := JobFile(l, f, {f}, {}))
    case RecoverRun(r, delivered) =>
      w.(ledger := RunFile(l, r, w.updated, if delivered then {r} else {}),
         lost := w.lost + if delivered || (l.runMarkers[r], r) in w.updated then {} else {r})
  }

  function Execute(w: World, steps: seq<Step>): Option<World>
    decreases |steps|
  {
    if steps == [] then Some(w)
    else if Enabled(w, steps[0]) then Execute(Apply(w, steps[0]), steps[1..])
    else None
  }

  ghost predicate Reachable(w: World) {
    exists steps :: Execute(INITIAL, steps) == Some(w)
  }

  ghost predicate RunInv(w: World, r: RunId)
    requires r in w.runs
  {
    var run, l := w.runs[r], w.ledger;
    && (run.phase.Created? ==> run.next == 0)
    && r in l.status && r in l.logs && r in w.workflowOf
    // a RUNNING run has a marker, except between creating the row and writing the file
    && (l.status[r] == RUNNING ==> r in l.runMarkers || run.phase.Created? || r in w.lost)
    && (run.phase.Reported? || run.phase.Done? ==> l.status[r] != RUNNING || r in w.lost)
    && (run.phase.Created? ==> l.status[r] == RUNNING && r !in l.runMarkers)
    // a stored success is a real one, of a run with a job log
    && (l.status[r] == SUCCESS ==> 0 < LogCount(l, r) && run.phase in {R.Reported(R.SUCCESS), R.Done(R.SUCCESS)})
  }

  ghost predicate MarkersInv(w: World) {
    && w.ledger.status.Keys == w.runs.Keys
    && w.ledger.runMarkers.Keys <= w.runs.Keys
    && forall f :: f in w.ledger.taskMarkers && w.ledger.taskMarkers[f].run.Some? ==>
         var r := w.ledger.taskMarkers[f].run.value;
         r in w.runs && 0 < w.runs[r].next && 0 < LogCount(w.ledger, r)
  }

  ghost predicate RunsInv(w: World) {
    forall r :: r in w.runs ==> RunInv(w, r)
  }

  ghost predicate Inv(w: World) {
    MarkersInv(w) && RunsInv(w)
  }

  /** What a step of run `r` leaves of the runs and the ledger, seen from another run. */
  lemma OtherRunKept(w: World, w': World, r: RunId, q: RunId)
    requires Inv(w) && q in w.runs && q != r && q in w'.runs && w'.runs[q] == w.runs[q] && w'.workflowOf == w.workflowOf
    requires w.lost <= w'.lost && w'.lost <= w.lost + {r} && w'.ledger.logs == w.ledger.logs
    requires q in w'.ledger.status && w'.ledger.status[q] == w.ledger.status[q]
    requires q in w'.ledger.runMarkers <==> q in w.ledger.runMarkers
    ensures RunInv(w', q)
  {
    assert RunInv(w, q);
  }

  lemma AdvancedMarkers(w: World, r: RunId, s: R.Step, arrives: bool)
    requires Inv(w) && Enabled(w, Advance(r, s, arrives))
    ensures MarkersInv(Apply(w, Advance(r, s, arrives)))
  {
    assert RunInv(w, r);
    assert R.Apply(w.runs[r], s).next >= w.runs[r].next;
  }

  lemma SaveMarkerKeeps(w: World, r: RunId, arrives: bool)
    requires Inv(w) && Enabled(w, Advance(r, R.SaveMarker, arrives))
    ensures RunsInv(Apply(w, Advance(r, R.SaveMarker, arrives)))
  {
    var w' := Apply(w, Advance(r, R.SaveMarker, arrives));
    assert RunInv(w, r);
    forall q | q in w'.runs && q != r ensures RunInv(w', q) {
      OtherRunKept(w, w', r, q);
    }
  }

  lemma ReportKeeps(w: World, r: RunId, arrives: bool)
    requires Inv(w) && Enabled(w, Advance(r, R.Report, arrives))
    ensures RunsInv(Apply(w, Advance(r, R.Report, arrives)))
  {
    var w' := Apply(w, Advance(r, R.Report, arrives));
    assert RunInv(w, r);
    forall q | q in w'.runs && q != r ensures RunInv(w', q) {
      OtherRunKept(w, w', r, q);
    }
  }

  lemma DropMarkerKeeps(w: World, r: RunId, arrives: bool)
    requires Inv(w) && Enabled(w, Advance(r, R.DropMarker, arrives))
    ensures RunsInv(Apply(w, Advance(r, R.DropMarker, arrives)))
  {
    var w' := Apply(w, Advance(r, R.DropMarker, arrives));
    assert RunInv(w, r);
    forall q | q in w'.runs && q != r ensures RunInv(w', q) {
      OtherRunKept(w, w', r, q);
    }
  }

  lemma InnerStepKeeps(w: World, r: RunId, s: R.Step, arrives: bool)
    requires Inv(w) && Enabled(w, Advance(r, s, arrives)) && !s.SaveMarker? && !s.Report? && !s.DropMarker?
    ensures RunsInv(Apply(w, Advance(r, s, arrives)))
  {
    var w' := Apply(w, Advance(r, s, arrives));
    assert RunInv(w, r);
    forall q | q in w'.runs && q != r ensures RunInv(w', q) {
      OtherRunKept(w, w', r, q);
    }
  }

  lemma AdvanceKeepsInv(w: World, r: RunId, s: R.Step, arrives: bool)
    requires Inv(w) && Enabled(w, Advance(r, s, arrives))
    ensures Inv(Apply(w, Advance(r, s, arrives)))
  {
    AdvancedMarkers(w, r, s, arrives);
    if s.SaveMarker? {
      SaveMarkerKeeps(w, r, arrives);
    } else if s.Report? {
      ReportKeeps(w, r, arrives);
    } else if s.DropMarker? {
      DropMarkerKeeps(w, r, arrives);
    } else {
      InnerStepKeeps(w, r, s, arrives);
    }
  }

  lemma RecoverKeepsInv(w: World, accepted: set<FileName>, delivered: set<RunId>)
    requires Inv(w)
    ensures Inv(Apply(w, Recover(accepted, delivered)))
  {
    var w' := Apply(w, Recover(accepted, delivered));
    RecoveredStatus(w.ledger, accepted, delivered);
    forall q | q in w'.runs ensures RunInv(w', q) {
      assert RunInv(w, q);
      CreatedUntouched(w, accepted, q);
    }
  }

  /** A run whose marker is not yet written is named by no marker at all. */
  lemma CreatedUntouched(w: World, accepted: set<FileName>, r: RunId)
    requires Inv(w) && r in w.runs
    ensures w.runs[r].phase.Created? ==> r !in Touched(w.ledger, accepted)
  {
    assert RunInv(w, r);
  }

  lemma RecoverTaskMarkers(w: World, f: FileName, reached: bool)
    requires Inv(w) && Enabled(w, RecoverTask(f, reached))
    ensures MarkersInv(Apply(w, RecoverTask(f, reached)))
  {
    var w' := Apply(w, RecoverTask(f, reached));
    assert w'.runs == w.runs && w'.ledger.logs == w.ledger.logs && w'.ledger.runMarkers == w.ledger.runMarkers;
    assert w'.ledger.taskMarkers == w.ledger.taskMarkers - {f};
  }

  lemma RecoverTaskKeepsInv(w: World, f: FileName, reached: bool)
    requires Inv(w) && Enabled(w, RecoverTask(f, reached))
    ensures Inv(Apply(w, RecoverTask(f, reached)))
  {
    var w' := Apply(w, RecoverTask(f, reached));
    RecoverTaskMarkers(w, f, reached);
    var m := w.ledger.taskMarkers[f];
    if m.run.Some? && m.workflow.Some? {
      assert RunInv(w, m.run.value);
      forall q | q in w'.runs && q != m.run.value ensures RunInv(w', q) {
        OtherRunKept(w, w', m.run.value, q);
      }
    } else {
      forall q | q in w'.runs ensures RunInv(w', q) {
        assert RunInv(w, q);
      }
    }
  }

  lemma RecoverRunKeepsInv(w: World, r: RunId, delivered: bool)
    requires Inv(w) && Enabled(w, RecoverRun(r, delivered))
    ensures Inv(Apply(w, RecoverRun(r, delivered)))
  {
    var w' := Apply(w, RecoverRun(r, delivered));
    assert RunInv(w, r);
    forall q | q in w'.runs && q != r ensures RunInv(w', q) {
      OtherRunKept(w, w', r, q);
    }
  }

  lemma StepKeepsInv(w: World, step: Step)
    requires Inv(w) && Enabled(w, step)
    ensures Inv(Apply(w, step))
  {
    match step
    case Advance(r, s, arrives) => AdvanceKeepsInv(w, r, s, arrives);
    case Recover(accepted, delivered) => RecoverKeepsInv(w, accepted, delivered);
    case RecoverTask(f, delivered) => RecoverTaskKeepsInv(w, f, delivered);
    case RecoverRun(r, delivered) => RecoverRunKeepsInv(w, r, delivered);
    case _ =>
      var w' := Apply(w, step);
      forall q | q in w'.runs ensures RunInv(w', q) {
        if q in w.runs {
          assert RunInv(w, q);
        }
      }
  }

  lemma {:induction false} ExecuteKeepsInv(w: World, steps: seq<Step>)
    requires Inv(w) && Execute(w, steps).Some?
    ensures Inv(Execute(w, steps).value)
    decreases |steps|
  {
    if steps != [] {
      StepKeepsInv(w, steps[0]);
      ExecuteKeepsInv(Apply(w, steps[0]), steps[1..]);
    }
  }

  lemma ReachableInv(w: World)
    requires Reachable(w)
    ensures Inv(w)
  {
    var steps :| Execute(INITIAL, steps) == Some(w);
    ExecuteKeepsInv(INITIAL, steps);
  }

  // ---------------------------------------------------------------- main results

  /** A RUNNING run has its marker on disk, unless its row was only just created or an update
      of its status was lost. */
  lemma RunningHasMarker(w: World, r: RunId)
    requires Reachable(w) && r in w.runs && r in w.ledger.status && w.ledger.status[r] == RUNNING
    ensures r in w.ledger.runMarkers || w.runs[r].phase.Created? || r in w.lost
  {
    ReachableInv(w);
    assert RunInv(w, r);
  }

  /** Recovery after a crash anywhere, if the updates of the run arrive: it is still RUNNING
      afterwards exactly if it was caught between the creation of its row and the writing of
      its marker, or an earlier update of its status was lost and no marker names it any more. */
  lemma RecoveryExact(w: World, accepted: set<FileName>, delivered: set<RunId>, r: RunId)
    requires Reachable(w) && r in w.runs
    requires r in Touched(w.ledger, accepted) ==> r in delivered
    ensures r in w.ledger.status && r in Recovered(w.ledger, accepted, delivered).status
    ensures Recovered(w.ledger, accepted, delivered).status[r] == RUNNING <==>
      || w.runs[r].phase.Created?
      || (r in w.lost && w.ledger.status[r] == RUNNING && r !in Touched(w.ledger, accepted))
  {
    ReachableInv(w);
    assert RunInv(w, r);
    RecoveredStatus(w.ledger, accepted, delivered);
    CreatedUntouched(w, accepted, r);
  }

  /** A run that reports its verdict is stored with it if it has a job log, and as SKIPPED otherwise;
      no other row changes. */
  lemma ReportStores(w: World, r: RunId)
    requires Reachable(w) && r in w.runs && w.runs[r].phase.Closing?
    ensures Enabled(w, Advance(r, R.Report, true))
    ensures r in w.ledger.status && r in w.ledger.logs
    ensures var verdict := if w.runs[r].phase.v == R.SUCCESS then SUCCESS else FAILED;
      Apply(w, Advance(r, R.Report, true)).ledger ==
        w.ledger.(status := w.ledger.status[r := if 0 < w.ledger.logs[r] then verdict else SKIPPED])
  {
    ReachableInv(w);
    assert RunInv(w, r);
  }

  /** Over every interleaving of runs, crashes and recovery passes: a run stored as SUCCESS has
      ended with that verdict and has a job log. */
  lemma StoredSuccessIsReal(w: World, r: RunId)
    requires Reachable(w) && r in w.runs && r in w.ledger.status && w.ledger.status[r] == SUCCESS
    ensures w.runs[r].phase == R.Reported(R.SUCCESS) || w.runs[r].phase == R.Done(R.SUCCESS)
    ensures r in w.ledger.logs && 0 < w.ledger.logs[r]
  {
    ReachableInv(w);
    assert RunInv(w, r);
  }

  lemma ExecuteSnoc(w: World, steps: seq<Step>, step: Step)
    requires Execute(w, steps).Some? && Enabled(Execute(w, steps).value, step)
    ensures Execute(w, steps + [step]) == Some(Apply(Execute(w, steps).value, step))
    decreases |steps|
  {
    if steps == [] {
      assert [] + [step] == [step];
    } else {
      assert (steps + [step])[1..] == steps[1..] + [step];
      ExecuteSnoc(Apply(w, steps[0]), steps[1..], step);
    }
  }

  lemma ReachableNext(w: World, step: Step)
    requires Reachable(w) && Enabled(w, step)
    ensures Reachable(Apply(w, step))
  {
    var steps :| Execute(INITIAL, steps) == Some(w);
    ExecuteSnoc(INITIAL, steps, step);
  }

  /** The world after a lost last update and the removal of the marker. */
  ghost predicate Dropped(w: World, w2: World, r: RunId) {
    && r in w.runs && w.runs[r].phase.Closing? && r in w2.runs && w2.runs[r].phase == R.Done(w.runs[r].phase.v)
    && w2.ledger.status == w.ledger.status && w2.ledger.taskMarkers == w.ledger.taskMarkers
    && r !in w2.ledger.runMarkers
  }

  lemma ReportLost(w: World, r: RunId)
    requires r in w.runs && RunInv(w, r) && w.runs[r].phase.Closing?
    ensures Enabled(w, Advance(r, R.Report, false))
    ensures var w1 := Apply(w, Advance(r, R.Report, false));
      && Enabled(w1, Advance(r, R.DropMarker, true))
      && Dropped(w, Apply(w1, Advance(r, R.DropMarker, true)), r)
  {}

  lemma DroppedStays(w: World, w2: World, r: RunId, accepted: set<FileName>, delivered: set<RunId>)
    requires Dropped(w, w2, r) && r in w2.ledger.status && w2.ledger.status[r] == RUNNING
    ensures r in Recovered(w2.ledger, accepted, delivered).status
    ensures r !in NamedRuns(w.ledger, accepted) ==> Recovered(w2.ledger, accepted, delivered).status[r] == RUNNING
  {
    RecoveredStatus(w2.ledger, accepted, delivered);
    assert NamedRuns(w2.ledger, accepted) == NamedRuns(w.ledger, accepted);
  }

  /** The worker drops the marker of an ended run even when the update of its row failed. From
      then on no recovery pass closes the run, unless a task marker still names it. */
  lemma LostUpdate(w: World, r: RunId, accepted: set<FileName>, delivered: set<RunId>)
    requires Reachable(w) && r in w.runs && w.runs[r].phase.Closing?
    requires r in w.ledger.status && w.ledger.status[r] == RUNNING
    ensures var w1 := Apply(w, Advance(r, R.Report, false));
      && Enabled(w1, Advance(r, R.DropMarker, true))
      && var w2 := Apply(w1, Advance(r, R.DropMarker, true));
         && Reachable(w2) && w2.runs[r].phase == R.Done(w.runs[r].phase.v)
         && r in Recovered(w2.ledger, accepted, delivered).status
         && (r !in NamedRuns(w.ledger, accepted) ==> Recovered(w2.ledger, accepted, delivered).status[r] == RUNNING)
  {
    ReachableInv(w);
    assert RunInv(w, r);
    var w1 := Apply(w, Advance(r, R.Report, false));
    var w2 := Apply(w1, Advance(r, R.DropMarker, true));
    ReportLost(w, r);
    ReachableNext(w, Advance(r, R.Report, false));
    ReachableNext(w1, Advance(r, R.DropMarker, true));
    DroppedStays(w, w2, r, accepted, delivered);
  }

  predicate Inner(s: R.Step) {
    !s.SaveMarker? && !s.Report? && !s.DropMarker?
  }

  /** Steps inside a run change nothing but the run. */
  lemma {:induction false} ReachableInside(w: World, r: RunId, steps: seq<R.Step>)
    requires Reachable(w) && r in w.runs && R.Execute(w.runs[r], steps).Some?
    requires forall i :: 0 <= i < |steps| ==> Inner(steps[i])
    ensures Reachable(w.(runs := w.runs[r := R.Execute(w.runs[r], steps).value]))
    decreases |steps|
  {
    if steps == [] {
      assert w.runs[r := w.runs[r]] == w.runs;
    } else {
      var w1 := Apply(w, Advance(r, steps[0], true));
      ReachableNext(w, Advance(r, steps[0], true));
      assert w1 == w.(runs := w.runs[r := R.Apply(w.runs[r], steps[0])]);
      assert forall i :: 0 <= i < |steps| - 1 ==> steps[1..][i] == steps[i + 1];
      ReachableInside(w1, r, steps[1..]);
      assert w1.runs[r := R.Execute(w1.runs[r], steps[1..]).value] == w.runs[r := R.Execute(w.runs[r], steps).value];
    }
  }

  lemma OneTaskRun(run: R.Run, t: Task) returns (steps: seq<R.Step>)
    requires run == R.Begin([[t]]).(phase := R.Marked)
    ensures R.Execute(run, steps).Some? && R.Execute(run, steps).value.phase == R.Closing(R.SUCCESS)
    ensures forall i :: 0 <= i < |steps| ==> Inner(steps[i])
  {
    var pos := R.Pos(0, 0);
    var r1 := R.Apply(run, R.SendFirst);
    var r2 := R.Apply(r1, R.DispatchGroup);
    var r3 := R.Apply(r2, R.Return(pos, true));
    assert !R.AnyFailed(r3.orders, r3.returned, 0);
    var r4 := R.Apply(r3, R.Callback);
    steps := [R.SendFirst, R.DispatchGroup, R.Return(pos, true), R.Callback];
    assert steps[1..] == [R.DispatchGroup, R.Return(pos, true), R.Callback];
    assert steps[1..][1..] == [R.Return(pos, true), R.Callback];
    assert steps[1..][1..][1..] == [R.Callback] && steps[1..][1..][1..][1..] == [];
    assert R.Execute(r4, []) == Some(r4);
    assert R.Execute(r3, [R.Callback]) == Some(r4);
    assert R.Execute(r2, [R.Return(pos, true), R.Callback]) == Some(r4);
    assert R.Execute(r1, [R.DispatchGroup, R.Return(pos, true), R.Callback]) == Some(r4);
  }

  /** Such a run: one task, which succeeds, and a lost last update. */
  lemma LostUpdateInput(r: RunId, workflow: WorkflowId, t: Task, accepted: set<FileName>, delivered: set<RunId>)
    returns (w: World)
    ensures Reachable(w) && r in w.runs && w.runs[r].phase == R.Done(R.SUCCESS)
    ensures r in Recovered(w.ledger, accepted, delivered).status
    ensures Recovered(w.ledger, accepted, delivered).status[r] == RUNNING
  {
    assert Execute(INITIAL, []) == Some(INITIAL);
    var w0 := Apply(INITIAL, Create(r, workflow, [[t]]));
    ReachableNext(INITIAL, Create(r, workflow, [[t]]));
    var w1 := Apply(w0, Advance(r, R.SaveMarker, true));
    ReachableNext(w0, Advance(r, R.SaveMarker, true));
    var steps := OneTaskRun(w1.runs[r], t);
    ReachableInside(w1, r, steps);
    var w2 := w1.(runs := w1.runs[r := R.Execute(w1.runs[r], steps).value]);
    LostUpdate(w2, r, accepted, delivered);
    w := Apply(Apply(w2, Advance(r, R.Report, false)), Advance(r, R.DropMarker, true));
  }

  /** A run with a started task still on disk is recovered as FAILED, never as SKIPPED. */
  lemma StartedIsFailed(w: World, accepted: set<FileName>, delivered: set<RunId>, f: FileName)
    requires Reachable(w) && f in w.ledger.taskMarkers && f in accepted
    requires var m := w.ledger.taskMarkers[f]; m.run.Some? && m.workflow.Some? && m.run.value in delivered
    ensures var r := w.ledger.taskMarkers[f].run.value;
      var status := Recovered(w.ledger, accepted, delivered).status;
      r in status && status[r] == FAILED
  {
    ReachableInv(w);
    var r := w.ledger.taskMarkers[f].run.value;
    assert RunInv(w, r);
    RecoveredStatus(w.ledger, accepted, delivered);
    assert r in NamedRuns(w.ledger, accepted);
  }

  /** Recovery also rewrites a run that had already ended, exactly while its marker is still
      there: a crash after the report and before the marker is dropped turns SUCCESS into FAILED. */
  lemma EndedRunRewritten(w: World, accepted: set<FileName>, delivered: set<RunId>, r: RunId)
    requires Reachable(w) && r in w.runs && r in w.ledger.status && w.ledger.status[r] == SUCCESS
    ensures var status := Recovered(w.ledger, accepted, delivered).status;
      && r in status
      && (status[r] == if r in Touched(w.ledger, accepted) && r in delivered then FAILED else SUCCESS)
  {
    ReachableInv(w);
    assert RunInv(w, r);
    RecoveredStatus(w.ledger, accepted, delivered);
  }
}
