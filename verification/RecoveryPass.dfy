/** What a run and a recovery pass leave behind, step by step: job logs, task markers, and the
    pass over the marker files as the sequence of its per-file steps. */
module RecoveryPass {
  import opened Wrappers
  import opened Recovery
  import R = WorkflowRun

  // ---------------------------------------------------------------- job logs and task markers

  /** How many tasks of a run the steps start. */
  function Starts(steps: seq<Step>, r: RunId): nat
    decreases |steps|
  {
    if steps == [] then 0
    else (if steps[0].StartTask? && steps[0].m.run == Some(r) then 1 else 0) + Starts(steps[1..], r)
  }

  lemma StepLogs(w: World, step: Step, r: RunId)
    requires Enabled(w, step) && (r !in w.runs ==> LogCount(w.ledger, r) == 0)
    ensures LogCount(Apply(w, step).ledger, r) ==
      LogCount(w.ledger, r) + if step.StartTask? && step.m.run == Some(r) then 1 else 0
    ensures r in w.runs ==> r in Apply(w, step).runs
    ensures r !in Apply(w, step).runs ==> LogCount(Apply(w, step).ledger, r) == 0
  {}

  /** A run has one job log for each of its tasks that was started, whatever happens in between. */
  lemma {:induction false} LogsCounted(w: World, steps: seq<Step>, r: RunId)
    requires (r !in w.runs ==> LogCount(w.ledger, r) == 0) && Execute(w, steps).Some?
    ensures LogCount(Execute(w, steps).value.ledger, r) == LogCount(w.ledger, r) + Starts(steps, r)
    decreases |steps|
  {
    if steps != [] {
      StepLogs(w, steps[0], r);
      LogsCounted(Apply(w, steps[0]), steps[1..], r);
    }
  }

  /** So a run none of whose tasks was started has its verdict stored as SKIPPED. */
  lemma NeverStartedIsSkipped(steps: seq<Step>, r: RunId)
    requires Execute(INITIAL, steps).Some? && Starts(steps, r) == 0
    requires var w := Execute(INITIAL, steps).value; r in w.runs && w.runs[r].phase.Closing?
    ensures var w := Execute(INITIAL, steps).value;
      && Enabled(w, Advance(r, R.Report, true))
      && var status := Apply(w, Advance(r, R.Report, true)).ledger.status; r in status && status[r] == SKIPPED
  {
    var w := Execute(INITIAL, steps).value;
    LogsCounted(INITIAL, steps, r);
    assert Reachable(w);
    ReportStores(w, r);
  }

  /** A task marker stands for exactly the tasks whose last log call has not succeeded: a crash in
      between makes the next pass log the task as failed, and only then. */
  lemma MarkerSpansTask(w: World, f: FileName, m: TaskMarker, logged: bool, accepted: set<FileName>,
      delivered: set<RunId>)
    requires m.run.Some? ==> m.run.value in w.runs && 0 < w.runs[m.run.value].next
    requires f in accepted
    ensures Enabled(w, StartTask(f, m))
    ensures var w1 := Apply(w, StartTask(f, m));
      && m.logId in Recovered(w1.ledger, accepted, delivered).failedLogs
      && Enabled(w1, EndTask(f, logged))
      && var w2 := Apply(w1, EndTask(f, logged));
         && (f in w2.ledger.taskMarkers <==> !logged)
         && (forall g :: g != f ==> (g in w2.ledger.taskMarkers <==> g in w.ledger.taskMarkers))
         && (!logged ==> m.logId in Recovered(w2.ledger, accepted, delivered).failedLogs)
  {
    TaskMarkersGo(Apply(w, StartTask(f, m)).ledger, accepted, delivered, f);
  }

  // ---------------------------------------------------------------- a pass, file by file

  /** A pass has handled the task files in `done`. */
  ghost predicate TasksDone(w: World, w': World, done: set<FileName>, delivered: set<RunId>) {
    && w'.ledger == AfterJobs(w.ledger, done, delivered)
    && w'.updated == NamedPairs(w.ledger, done)
    && w'.lost == w.lost + (NamedRuns(w.ledger, done) - delivered)
  }

  lemma NextTask(w: World, w': World, done: set<FileName>, delivered: set<RunId>, f: FileName) returns (step: Step)
    requires TasksDone(w, w', done, delivered) && f in w.ledger.taskMarkers && f !in done
    ensures Enabled(w', step) && TasksDone(w, Apply(w', step), done + {f}, delivered)
  {
    var m := w.ledger.taskMarkers[f];
    assert f in w'.ledger.taskMarkers && w'.ledger.taskMarkers[f] == m;
    step := RecoverTask(f, m.run.Some? && m.run.value in delivered);
    NamedStep(w.ledger, done, f);
    JobsStep(w.ledger, done, delivered, f);
  }

  lemma PassTasks(w: World, files: seq<FileName>, accepted: set<FileName>, delivered: set<RunId>)
    returns (steps: seq<Step>, w': World)
    requires Distinct(files) && Listed(files) <= w.ledger.taskMarkers.Keys && w.updated == {}
    ensures Execute(w, steps) == Some(w') && TasksDone(w, w', accepted * Listed(files), delivered)
    decreases |files|
  {
    if files == [] {
      steps, w' := [], w;
      assert NamedPairs(w.ledger, {}) == {} && NamedRuns(w.ledger, {}) == {};
      assert AfterJobs(w.ledger, {}, delivered) == w.ledger;
    } else {
      var f, before := files[|files| - 1], files[..|files| - 1];
      ListedLast(files);
      steps, w' := PassTasks(w, before, accepted, delivered);
      ListedAccepted(files, accepted);
      if f in accepted {
        var step := NextTask(w, w', accepted * Listed(before), delivered, f);
        ExecuteSnoc(w, steps, step);
        steps, w' := steps + [step], Apply(w', step);
      }
    }
  }

  lemma ListedAccepted(files: seq<FileName>, accepted: set<FileName>)
    requires files != [] && Distinct(files)
    ensures var f, before := files[|files| - 1], files[..|files| - 1];
      && f !in before && Distinct(before)
      && (f in accepted ==> accepted * Listed(files) == accepted * Listed(before) + {f})
      && (f !in accepted ==> accepted * Listed(files) == accepted * Listed(before))
  {
    ListedLast(files);
  }

  /** The runs among `files` whose update is tried by the second half of a pass and does not arrive. */
  function Missed(w: World, files: seq<RunId>, delivered: set<RunId>): set<RunId> {
    set r | r in w.ledger.runMarkers && r in files && r !in delivered && (w.ledger.runMarkers[r], r) !in w.updated
  }

  lemma PassRuns(w: World, files: seq<RunId>, delivered: set<RunId>) returns (steps: seq<Step>, w': World)
    requires Distinct(files) && Listed(files) <= w.ledger.runMarkers.Keys
    ensures Execute(w, steps) == Some(w') && w'.updated == w.updated
    ensures w'.lost == w.lost + Missed(w, files, delivered)
    ensures w'.ledger == RunFiles(w.ledger, files, w.updated, delivered)
    decreases |files|
  {
    if files == [] {
      steps, w' := [], w;
      assert Missed(w, files, delivered) == {};
    } else {
      var r, before := files[|files| - 1], files[..|files| - 1];
      ListedLast(files);
      steps, w' := PassRuns(w, before, delivered);
      RunFilesAre(w.ledger, before, w.updated, delivered);
      assert r !in before && r in w'.ledger.runMarkers && w'.ledger.runMarkers[r] == w.ledger.runMarkers[r];
      var step := RecoverRun(r, r in delivered);
      ExecuteSnoc(w, steps, step);
      steps, w' := steps + [step], Apply(w', step);
      assert forall q :: q in files <==> q in before || q == r;
      assert w'.lost == w.lost + Missed(w, files, delivered);
    }
  }

  /** A pass that is not cut short is a sequence of its per-file steps, in any order of the files. */
  lemma PassIsSteps(w: World, taskFiles: seq<FileName>, runFiles: seq<RunId>, accepted: set<FileName>,
      delivered: set<RunId>)
    returns (steps: seq<Step>, w': World)
    requires Distinct(taskFiles) && Listed(taskFiles) == w.ledger.taskMarkers.Keys
    requires Distinct(runFiles) && Listed(runFiles) == w.ledger.runMarkers.Keys
    ensures Execute(w, [StartPass] + steps) == Some(w')
    ensures w'.ledger == Recovered(w.ledger, accepted, delivered)
    ensures w'.lost == w.lost + (Touched(w.ledger, accepted) - delivered)
  {
    var l, w0 := w.ledger, Apply(w, StartPass);
    var first, w1 := PassTasks(w0, taskFiles, accepted, delivered);
    assert accepted * Listed(taskFiles) == l.taskMarkers.Keys * accepted == accepted * l.taskMarkers.Keys;
    AllJobs(l, accepted, delivered);
    AllNamed(l, accepted);
    var second;
    second, w' := PassRuns(w1, runFiles, delivered);
    RunFilesAre(w1.ledger, runFiles, w1.updated, delivered);
    AllRuns(w1.ledger, w1.updated, delivered);
    PassLoses(w, w1, runFiles, accepted, delivered);
    ExecuteJoin(w0, first, second);
    steps := first + second;
    assert ([StartPass] + steps)[1..] == steps;
  }

  lemma PassLoses(w: World, w1: World, runFiles: seq<RunId>, accepted: set<FileName>, delivered: set<RunId>)
    requires TasksDone(w, w1, accepted * w.ledger.taskMarkers.Keys, delivered)
    requires Listed(runFiles) == w.ledger.runMarkers.Keys
    ensures w1.lost + Missed(w1, runFiles, delivered) == w.lost + (Touched(w.ledger, accepted) - delivered)
  {
    var l, done := w.ledger, accepted * w.ledger.taskMarkers.Keys;
    AllNamed(l, accepted);
    assert NamedRuns(l, done) == NamedRuns(l, accepted);
    forall r | r in l.runMarkers && (l.runMarkers[r], r) in NamedPairs(l, accepted)
      ensures r in NamedRuns(l, accepted)
    {}
    forall r ensures r in Listed(runFiles) <==> r in runFiles {}
  }

  lemma {:induction false} ExecuteJoin(w: World, a: seq<Step>, b: seq<Step>)
    requires Execute(w, a).Some?
    ensures Execute(w, a + b) == Execute(Execute(w, a).value, b)
    decreases |a|
  {
    if a == [] {
      assert a + b == b;
    } else {
      assert (a + b)[1..] == a[1..] + b;
      ExecuteJoin(Apply(w, a[0]), a[1..], b);
    }
  }
}
