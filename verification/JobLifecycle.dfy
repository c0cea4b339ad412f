/** The worker's hooks around one job: admission, retries, failure counting, auto-drop, and
    the settings update of the beat side. Hooks are atomic steps; every interleaving of any
    number of task instances is a list of steps. */
module JobLifecycle {
  import opened Wrappers
  import R = WorkflowRun

  type TaskId = string

  datatype TaskStatus = CREATED | NONE | SUCCEED | FAILED | SKIPPED | CANCELLED

  /** The fields of JobSettings the hooks read and write. */
  datatype Job = Job(
    inWorkflow: bool,
    isEnable: bool,
    runForever: bool,
    maxRun: Option<nat>,
    maxFailure: nat,
    autoDrop: bool,
    restartOnFailure: bool,
    restartable: bool,
    runCount: nat,
    failureCount: nat,
    retryCount: nat)

  datatype Phase =
    | Queued
    | Executing(admitted: bool)  // the body runs; a refusal has cleared the task cache
    | Ignored                    // before_start stopped the instance
    | Settling(success: bool, cached: bool)  // on_success or on_failure is next
    | Returning                  // after_return is next
    | Revoked                    // stopped by a user; no counter moves
    | Closed

  /** A task instance: its TaskDetail row, its celery request, and what happened to it. */
  datatype Instance = Instance(
    manual: bool,
    workflowRun: bool,
    late: bool,              // the worker started after the run date
    retryCount: nat,         // TaskDetail.retry_count
    requestRetries: nat,     // the broker's own count
    status: TaskStatus,
    phase: Phase,
    attempts: nat,           // bodies started
    counted: bool,           // its first attempt was admitted
    failed: bool)            // it finally failed

  function NewInstance(manual: bool, workflowRun: bool, late: bool): Instance {
    Instance(manual, workflowRun, late, 0, 0, CREATED, Queued, 0, false, false)
  }

  // ---------------------------------------------------------------- before_start

  predicate Skips(j: Job, t: Instance) {
    && !t.manual
    && ((j.inWorkflow && !t.workflowRun) || !j.isEnable || (t.late && !j.restartable))
  }

  /** The bound is tested by equality, and only for a first attempt. */
  predicate Exhausted(j: Job, t: Instance) {
    j.maxRun == Some(j.runCount) && !j.runForever && t.retryCount == 0
  }

  predicate Admits(j: Job, t: Instance) {
    !Skips(j, t) && !Exhausted(j, t)
  }

  /** The `return` in the `finally` block drops the Ignore that was being raised. */
  predicate DropsIgnore(j: Job, t: Instance) {
    t.workflowRun || !j.isEnable
  }

  function CountStart(j: Job, t: Instance): Job {
    if Admits(j, t) && t.retryCount == 0 then j.(runCount := j.runCount + 1) else j
  }

  function MarkStart(j: Job, t: Instance): Instance {
    if Admits(j, t) then t.(status := NONE, counted := t.counted || t.retryCount == 0)
    else t.(status := if Skips(j, t) then SKIPPED else CANCELLED)
  }

  /** Where the instance goes once its row is marked. */
  function Proceed(t: Instance, admitted: bool, dropsIgnore: bool): Instance {
    if admitted || dropsIgnore then t.(phase := Executing(admitted), attempts := t.attempts + 1)
    else t.(phase := Ignored)
  }

  function BeforeStart(j: Job, t: Instance): (Job, Instance) {
    (CountStart(j, t), Proceed(MarkStart(j, t), Admits(j, t), DropsIgnore(j, t)))
  }

  /** Whether the hook also creates the job's next entry; `j` is the job it leaves behind. */
  predicate Reschedules(j: Job, t: Instance) {
    && !DropsIgnore(j, t)
    && (j.runForever || (j.maxRun.Some? && j.runCount < j.maxRun.value))
    && !t.manual && t.requestRetries == 0
  }

  // ---------------------------------------------------------------- __call__ and the hooks after it

  datatype BodyResult = Succeeds | ReturnsFailure | Raises

  predicate Retries(j: Job, t: Instance) {
    j.restartOnFailure && t.retryCount < j.maxFailure && !j.autoDrop
  }

  function Call(j: Job, t: Instance, result: BodyResult, revoked: bool): (Job, Instance)
    requires t.phase.Executing?
  {
    if revoked then (j, t.(phase := Revoked))
    else if result == Raises && Retries(j, t) then
      var t' := t.(retryCount := t.retryCount + 1);
      (j.(retryCount := j.retryCount + 1),
       if t.requestRetries + 1 <= j.maxFailure
       then t'.(requestRetries := t.requestRetries + 1, status := FAILED, phase := Queued)
       else t'.(phase := Settling(false, t.phase.admitted)))
    else (j, t.(phase := Settling(result == Succeeds, t.phase.admitted)))
  }

  /** A success is timed by the task cache first; without it that raises, and the status stays
      as it was. */
  function Settle(j: Job, t: Instance): (Job, Instance)
    requires t.phase.Settling?
  {
    if t.phase.success then (j, t.(status := if t.phase.cached then SUCCEED else t.status, phase := Returning))
    else (j.(failureCount := j.failureCount + 1), t.(status := FAILED, phase := Returning, failed := true))
  }

  /** The newest row of the job that has already run: none, another task's, or the task's own. */
  datatype Latest = NoneHasRun | Another | Itself

  /** Computing the operation reads the newest row that has run, and, if it is the task's own,
      compares with max_run; it raises when there is no such row, or max_run is null. The
      retry counters are then not reset. */
  predicate OperationRaises(j: Job, latest: Latest) {
    latest.NoneHasRun? || (latest.Itself? && !j.runForever && j.maxRun.None?)
  }

  function AfterReturn(j: Job, t: Instance, latest: Latest): (Job, Instance) {
    var j1 := if j.autoDrop then j.(maxRun := Some(j.runCount), runForever := false) else j;
    if OperationRaises(j1, latest) then (j1, t.(phase := Closed))
    else (j1.(retryCount := 0), t.(retryCount := 0, phase := Closed))
  }

  // ---------------------------------------------------------------- updates

  /** An update request: `maxRun` is the value of that key if the key is present, and the value may
      be null; `bounded` says whether the job will have an end date, or its rule a COUNT or
      UNTIL. */
  datatype Change = Change(
    maxRun: Option<Option<nat>>, bounded: bool, datesRefused: bool,
    isEnable: bool, autoDrop: bool, restartOnFailure: bool, maxFailure: nat)

  function EffectiveMax(j: Job, c: Change): Option<nat> {
    if c.maxRun.Some? then c.maxRun.value else j.maxRun
  }

  /** The number an update gives, unless it gives none, null or zero. */
  function GivenMax(c: Change): Option<nat> {
    if c.maxRun.Some? && c.maxRun.value != Some(0) then c.maxRun.value else None
  }

  /** A max_run of zero or null is not compared with run_count. */
  predicate Accepts(j: Job, c: Change) {
    (GivenMax(c).Some? ==> GivenMax(c).value > j.runCount) && !c.datesRefused
  }

  function Update(j: Job, c: Change): Job {
    var max := EffectiveMax(j, c);
    j.(maxRun := max, runForever := !c.bounded && (max == None || max == Some(0)),
       isEnable := c.isEnable, autoDrop := c.autoDrop,
       restartOnFailure := c.restartOnFailure, maxFailure := c.maxFailure)
  }

  // ---------------------------------------------------------------- executions

  datatype State = State(job: Job, tasks: map<TaskId, Instance>, entries: nat /* next entries created */)

  datatype Step =
    | Arrive(id: TaskId, manual: bool, workflowRun: bool, late: bool)
    | Start(id: TaskId)
    | Run(id: TaskId, result: BodyResult, revoked: bool)
    | Finish(id: TaskId)
    | Return(id: TaskId, latest: Latest)
    | Change_(change: Change)

  predicate Enabled(s: State, step: Step) {
    match step
    case Arrive(id, _, _, _) => id !in s.tasks
    case Start(id) => id in s.tasks && s.tasks[id].phase.Queued?
    case Run(id, _, _) => id in s.tasks && s.tasks[id].phase.Executing?
    case Finish(id) => id in s.tasks && s.tasks[id].phase.Settling?
    case Return(id, _) => id in s.tasks && s.tasks[id].phase.Returning?
    case Change_(_) => true
  }

  function Put(s: State, id: TaskId, r: (Job, Instance)): State {
    s.(job := r.0, tasks := s.tasks[id := r.1])
  }

  function Apply(s: State, step: Step): State
    requires Enabled(s, step)
  {
    match step
    case Arrive(id, manual, workflowRun, late) => s.(tasks := s.tasks[id := NewInstance(manual, workflowRun, late)])
    case Start(id) =>
      var r := BeforeStart(s.job, s.tasks[id]);
      Put(s, id, r).(entries := s.entries + if Reschedules(r.0, s.tasks[id]) then 1 else 0)
    case Run(id, result, revoked) => Put(s, id, Call(s.job, s.tasks[id], result, revoked))
    case Finish(id) => Put(s, id, Settle(s.job, s.tasks[id]))
    case Return(id, latest) => Put(s, id, AfterReturn(s.job, s.tasks[id], latest))
    case Change_(c) => if Accepts(s.job, c) then s.(job := Update(s.job, c)) else s
  }

  function Execute(s: State, steps: seq<Step>): Option<State>
    decreases |steps|
  {
    if steps == [] then Some(s)
    else if Enabled(s, steps[0]) then Execute(Apply(s, steps[0]), steps[1..])
    else None
  }

  // ---------------------------------------------------------------- invariants

  function Counted(tasks: map<TaskId, Instance>): set<TaskId> {
    set id | id in tasks && tasks[id].counted
  }

  function FinallyFailed(tasks: map<TaskId, Instance>): set<TaskId> {
    set id | id in tasks && tasks[id].failed
  }

  /** `limit` bounds every max_failure the job ever has. */
  ghost predicate InstanceInv(t: Instance, limit: nat) {
    && t.requestRetries <= limit
    && (t.failed ==> t.phase.Returning? || t.phase.Closed?)
    && t.attempts <= t.requestRetries + 1
    && match t.phase
       case Queued => t.retryCount == t.requestRetries == t.attempts && (t.attempts == 0 ==> !t.counted)
       case Executing(_) => t.retryCount == t.requestRetries && t.attempts == t.requestRetries + 1
       case _ => true
  }

  ghost predicate Inv(s: State, limit: nat, runs: int, failures: int) {
    && s.job.maxFailure <= limit
    && (forall id :: id in s.tasks ==> InstanceInv(s.tasks[id], limit))
    && s.job.runCount == runs + |Counted(s.tasks)|
    && s.job.failureCount == failures + |FinallyFailed(s.tasks)|
  }

  ghost predicate WithinLimit(steps: seq<Step>, limit: nat) {
    forall i :: 0 <= i < |steps| && steps[i].Change_? ==> steps[i].change.maxFailure <= limit
  }

  /** `b` is `a` with the membership of `id` set. */
  lemma WithMember<T>(a: set<T>, b: set<T>, id: T, member: bool)
    requires id in a ==> member
    requires forall x :: x in b <==> if x == id then member else x in a
    ensures |b| == |a| + if member && id !in a then 1 else 0
    ensures member == (id in a) ==> b == a
  {
    if member && id !in a {
      assert b == a + {id};
    } else {
      assert b == a;
    }
  }

  lemma PutCounted(tasks: map<TaskId, Instance>, id: TaskId, t: Instance)
    requires id in Counted(tasks) ==> t.counted
    ensures |Counted(tasks[id := t])| == |Counted(tasks)| + if t.counted && id !in Counted(tasks) then 1 else 0
    ensures t.counted == (id in Counted(tasks)) ==> Counted(tasks[id := t]) == Counted(tasks)
  {
    WithMember(Counted(tasks), Counted(tasks[id := t]), id, t.counted);
  }

  lemma PutFailed(tasks: map<TaskId, Instance>, id: TaskId, t: Instance)
    requires id in FinallyFailed(tasks) ==> t.failed
    ensures |FinallyFailed(tasks[id := t])| ==
      |FinallyFailed(tasks)| + if t.failed && id !in FinallyFailed(tasks) then 1 else 0
  {
    WithMember(FinallyFailed(tasks), FinallyFailed(tasks[id := t]), id, t.failed);
  }

  lemma PutKeepsInv(s: State, id: TaskId, j: Job, t: Instance, limit: nat, runs: int, failures: int)
    requires Inv(s, limit, runs, failures) && InstanceInv(t, limit) && j.maxFailure <= limit
    requires var counted := id in s.tasks && s.tasks[id].counted;
      (counted ==> t.counted) && j.runCount == s.job.runCount + if t.counted && !counted then 1 else 0
    requires var failed := id in s.tasks && s.tasks[id].failed;
      (failed ==> t.failed) && j.failureCount == s.job.failureCount + if t.failed && !failed then 1 else 0
    ensures Inv(Put(s, id, (j, t)), limit, runs, failures)
  {
    PutCounted(s.tasks, id, t);
    PutFailed(s.tasks, id, t);
  }

  lemma StepKeepsInv(s: State, step: Step, limit: nat, runs: int, failures: int)
    requires Inv(s, limit, runs, failures) && Enabled(s, step)
    requires step.Change_? ==> step.change.maxFailure <= limit
    ensures Inv(Apply(s, step), limit, runs, failures)
  {
    if step.Arrive? {
      PutKeepsInv(s, step.id, s.job, NewInstance(step.manual, step.workflowRun, step.late), limit, runs, failures);
    } else if !step.Change_? {
      var t := s.tasks[step.id];
      assert InstanceInv(t, limit);
      var r;
      match step {
        case Start(_) =>
          r := BeforeStart(s.job, t);
          BeforeStartKeeps(s.job, t, limit);
        case Run(_, result, revoked) =>
          r := Call(s.job, t, result, revoked);
          CallKeeps(s.job, t, result, revoked, limit);
        case Finish(_) =>
          r := Settle(s.job, t);
          SettleKeeps(s.job, t, limit);
        case Return(_, latest) =>
          r := AfterReturn(s.job, t, latest);
          AfterReturnKeeps(s.job, t, latest, limit);
      }
      PutKeepsInv(s, step.id, r.0, r.1, limit, runs, failures);
    }
  }

  /** What a hook may do to the counters: one more run for an instance that becomes counted, one
      more failure for one that finally fails. */
  ghost predicate Kept(j: Job, t: Instance, r: (Job, Instance), limit: nat) {
    && InstanceInv(r.1, limit) && r.0.maxFailure <= limit
    && (t.counted ==> r.1.counted) && r.0.runCount == j.runCount + (if r.1.counted && !t.counted then 1 else 0)
    && (t.failed ==> r.1.failed) && r.0.failureCount == j.failureCount + if r.1.failed && !t.failed then 1 else 0
  }

  lemma BeforeStartKeeps(j: Job, t: Instance, limit: nat)
    requires InstanceInv(t, limit) && j.maxFailure <= limit && t.phase.Queued?
    ensures Kept(j, t, BeforeStart(j, t), limit)
  {
    var admitted := Admits(j, t);
    var t1 := MarkStart(j, t);
    assert t1.phase == t.phase && t1.attempts == t1.retryCount == t1.requestRetries && t1.failed == t.failed;
    assert CountStart(j, t).runCount == j.runCount + if t1.counted && !t.counted then 1 else 0;
    assert InstanceInv(Proceed(t1, admitted, DropsIgnore(j, t)), limit);
  }

  lemma CallKeeps(j: Job, t: Instance, result: BodyResult, revoked: bool, limit: nat)
    requires InstanceInv(t, limit) && j.maxFailure <= limit && t.phase.Executing?
    ensures Kept(j, t, Call(j, t, result, revoked), limit)
  {}

  lemma SettleKeeps(j: Job, t: Instance, limit: nat)
    requires InstanceInv(t, limit) && j.maxFailure <= limit && t.phase.Settling?
    ensures Kept(j, t, Settle(j, t), limit)
  {
    assert !t.failed;
    var r := Settle(j, t);
    assert r.1.phase == Returning && r.1.counted == t.counted && r.0.runCount == j.runCount;
    assert InstanceInv(r.1, limit);
  }

  lemma AfterReturnKeeps(j: Job, t: Instance, latest: Latest, limit: nat)
    requires InstanceInv(t, limit) && j.maxFailure <= limit && t.phase.Returning?
    ensures Kept(j, t, AfterReturn(j, t, latest), limit)
  {}

  lemma {:induction false} ExecuteKeepsInv(s: State, steps: seq<Step>, limit: nat, runs: int, failures: int)
    requires Inv(s, limit, runs, failures) && WithinLimit(steps, limit) && Execute(s, steps).Some?
    ensures Inv(Execute(s, steps).value, limit, runs, failures)
    decreases |steps|
  {
    if steps != [] {
      StepKeepsInv(s, steps[0], limit, runs, failures);
      assert forall i :: 0 <= i < |steps[1..]| ==> steps[1..][i] == steps[i + 1];
      ExecuteKeepsInv(Apply(s, steps[0]), steps[1..], limit, runs, failures);
    }
  }

  function Fresh(j: Job): State {
    State(j, map[], 0)
  }

  // ---------------------------------------------------------------- main results: counters

  /** run_count grows by exactly one per instance whose first attempt was admitted, and never
      for a retry; failure_count grows by exactly one per instance that finally failed, and
      never for a retried attempt, however the failure was reported. */
  lemma CountersExact(j: Job, steps: seq<Step>, limit: nat)
    requires j.maxFailure <= limit && WithinLimit(steps, limit) && Execute(Fresh(j), steps).Some?
    ensures var s := Execute(Fresh(j), steps).value;
      && s.job.runCount == j.runCount + |Counted(s.tasks)|
      && s.job.failureCount == j.failureCount + |FinallyFailed(s.tasks)|
  {
    assert Counted(Fresh(j).tasks) == {} && FinallyFailed(Fresh(j).tasks) == {};
    ExecuteKeepsInv(Fresh(j), steps, limit, j.runCount, j.failureCount);
  }

  /** An instance makes at most one attempt more than the largest max_failure of the job. */
  lemma AttemptsBounded(j: Job, steps: seq<Step>, limit: nat, id: TaskId)
    requires j.maxFailure <= limit && WithinLimit(steps, limit) && Execute(Fresh(j), steps).Some?
    requires id in Execute(Fresh(j), steps).value.tasks
    ensures Execute(Fresh(j), steps).value.tasks[id].attempts <= limit + 1
  {
    assert Counted(Fresh(j).tasks) == {} && FinallyFailed(Fresh(j).tasks) == {};
    ExecuteKeepsInv(Fresh(j), steps, limit, j.runCount, j.failureCount);
    assert InstanceInv(Execute(Fresh(j), steps).value.tasks[id], limit);
  }

  /** In every reachable state a retry is sent back to the queue: the broker's own limit, which
      is compared with its own count, never cuts a chain short. */
  lemma BrokerLimitAgrees(s: State, limit: nat, runs: int, failures: int, id: TaskId)
    requires Inv(s, limit, runs, failures) && id in s.tasks && s.tasks[id].phase.Executing?
    requires Retries(s.job, s.tasks[id])
    ensures var t' := Call(s.job, s.tasks[id], Raises, false).1;
      t'.phase.Queued? && t'.requestRetries == t'.retryCount == s.tasks[id].retryCount + 1
  {
    assert InstanceInv(s.tasks[id], limit);
  }

  // ---------------------------------------------------------------- main results: retries

  /** In every reachable state, an instance whose body raises, and that is not revoked, goes back to
      the queue with both counts equal to the attempts made, exactly if the job restarts on
      failure, is not auto-drop, and allows another attempt; otherwise it goes on to fail. */
  lemma RaisedExactly(j: Job, steps: seq<Step>, limit: nat, id: TaskId)
    requires j.maxFailure <= limit && WithinLimit(steps, limit) && Execute(Fresh(j), steps).Some?
    requires var s := Execute(Fresh(j), steps).value; id in s.tasks && s.tasks[id].phase.Executing?
    ensures var s := Execute(Fresh(j), steps).value;
      var s' := Apply(s, Run(id, Raises, false));
      var t, t' := s.tasks[id], s'.tasks[id];
      if s.job.restartOnFailure && !s.job.autoDrop && t.attempts <= s.job.maxFailure then
        t' == t.(phase := Queued, status := FAILED, retryCount := t.attempts, requestRetries := t.attempts)
        && s'.job == s.job.(retryCount := s.job.retryCount + 1)
      else t' == t.(phase := Settling(false, t.phase.admitted)) && s'.job == s.job
  {
    assert Counted(Fresh(j).tasks) == {} && FinallyFailed(Fresh(j).tasks) == {};
    ExecuteKeepsInv(Fresh(j), steps, limit, j.runCount, j.failureCount);
    assert InstanceInv(Execute(Fresh(j), steps).value.tasks[id], limit);
  }

  /** How many attempts a job gives an instance that always raises. */
  function AttemptsAllowed(restartOnFailure: bool, autoDrop: bool, maxFailure: nat): nat {
    if restartOnFailure && !autoDrop then maxFailure + 1 else 1
  }

  /** Updates leave the retry settings alone, and every body of the instance raises unrevoked. */
  ghost predicate OnlyRaises(j: Job, steps: seq<Step>, id: TaskId) {
    forall i :: 0 <= i < |steps| ==> KeepsRaising(j, steps[i], id)
  }

  predicate KeepsRaising(j: Job, step: Step, id: TaskId) {
    && (step.Run? && step.id == id ==> step.result == Raises && !step.revoked)
    && (step.Change_? ==> step.change.restartOnFailure == j.restartOnFailure && step.change.autoDrop == j.autoDrop
                          && step.change.maxFailure == j.maxFailure)
  }

  ghost predicate SameRetries(j: Job, k: Job) {
    j.restartOnFailure == k.restartOnFailure && j.autoDrop == k.autoDrop && j.maxFailure == k.maxFailure
  }

  /** Where an instance that always raises stands, by its attempts. */
  ghost predicate RaisingInstance(t: Instance, allowed: nat, limit: nat) {
    && InstanceInv(t, limit)
    && match t.phase
       case Queued => t.attempts < allowed && !t.failed
       case Executing(_) => t.attempts <= allowed && !t.failed
       case Settling(success, _) => !success && t.attempts == allowed
       case Returning => t.attempts == allowed && t.failed
       case Closed => t.attempts == allowed && t.failed
       case Ignored => !t.failed
       case Revoked => false
  }

  ghost predicate RaisingInv(s: State, id: TaskId, j: Job) {
    && SameRetries(s.job, j)
    && (id in s.tasks ==> RaisingInstance(
      s.tasks[id], AttemptsAllowed(j.restartOnFailure, j.autoDrop, j.maxFailure), j.maxFailure))
  }

  lemma StartRaises(now: Job, t: Instance, j: Job)
    requires SameRetries(now, j) && t.phase.Queued?
    requires RaisingInstance(t, AttemptsAllowed(j.restartOnFailure, j.autoDrop, j.maxFailure), j.maxFailure)
    ensures RaisingInstance(
      BeforeStart(now, t).1, AttemptsAllowed(j.restartOnFailure, j.autoDrop, j.maxFailure), j.maxFailure)
    ensures SameRetries(BeforeStart(now, t).0, j)
  {
    BeforeStartKeeps(now, t, j.maxFailure);
  }

  lemma RunRaises(now: Job, t: Instance, j: Job)
    requires SameRetries(now, j) && t.phase.Executing?
    requires RaisingInstance(t, AttemptsAllowed(j.restartOnFailure, j.autoDrop, j.maxFailure), j.maxFailure)
    ensures RaisingInstance(
      Call(now, t, Raises, false).1, AttemptsAllowed(j.restartOnFailure, j.autoDrop, j.maxFailure), j.maxFailure)
    ensures SameRetries(Call(now, t, Raises, false).0, j)
  {
    CallKeeps(now, t, Raises, false, j.maxFailure);
  }

  lemma StepRaises(s: State, step: Step, id: TaskId, j: Job)
    requires RaisingInv(s, id, j)
    requires Enabled(s, step) && KeepsRaising(j, step, id)
    ensures RaisingInv(Apply(s, step), id, j)
  {
    if !step.Change_? && step.id == id && id in s.tasks {
      var t := s.tasks[id];
      match step
      case Start(_) => StartRaises(s.job, t, j);
      case Run(_, _, _) => RunRaises(s.job, t, j);
      case Finish(_) => SettleKeeps(s.job, t, j.maxFailure);
      case Return(_, latest) => AfterReturnKeeps(s.job, t, latest, j.maxFailure);
    }
  }

  lemma {:induction false} ExecuteRaises(s: State, steps: seq<Step>, id: TaskId, j: Job)
    requires RaisingInv(s, id, j)
    requires Execute(s, steps).Some? && OnlyRaises(j, steps, id)
    ensures RaisingInv(Execute(s, steps).value, id, j)
    decreases |steps|
  {
    if steps != [] {
      StepRaises(s, steps[0], id, j);
      assert forall i :: 0 <= i < |steps[1..]| ==> steps[1..][i] == steps[i + 1];
      ExecuteRaises(Apply(s, steps[0]), steps[1..], id, j);
    }
  }

  /** Over every interleaving, an instance that always raises finally fails only after exactly
      max_failure + 1 attempts if the job restarts on failure and is not auto-drop, and after
      one attempt otherwise. */
  lemma AttemptsExact(j: Job, steps: seq<Step>, id: TaskId)
    requires Execute(Fresh(j), steps).Some? && OnlyRaises(j, steps, id)
    requires id in Execute(Fresh(j), steps).value.tasks && Execute(Fresh(j), steps).value.tasks[id].failed
    ensures Execute(Fresh(j), steps).value.tasks[id].attempts ==
      if j.restartOnFailure && !j.autoDrop then j.maxFailure + 1 else 1
  {
    ExecuteRaises(Fresh(j), steps, id, j);
  }

  /** The instance is queued for a further attempt that will be admitted. */
  ghost predicate MayRun(s: State, id: TaskId) {
    && s.job.restartOnFailure && !s.job.autoDrop
    && id in s.tasks && s.tasks[id].phase.Queued? && InstanceInv(s.tasks[id], s.job.maxFailure)
    && Admits(s.job, s.tasks[id])
  }

  lemma OneAttempt(s: State, id: TaskId)
    requires MayRun(s, id)
    ensures Enabled(s, Start(id)) && Enabled(Apply(s, Start(id)), Run(id, Raises, false))
    ensures var t, s' := s.tasks[id], Apply(Apply(s, Start(id)), Run(id, Raises, false));
      && id in s'.tasks && s'.tasks[id].attempts == t.attempts + 1 && s'.job.maxFailure == s.job.maxFailure
      && s'.job.restartOnFailure == s.job.restartOnFailure && s'.job.autoDrop == s.job.autoDrop
      && if t.attempts < s.job.maxFailure then MayRun(s', id) else s'.tasks[id].phase == Settling(false, true)
  {
    var s1 := Apply(s, Start(id));
    assert s1.tasks[id].phase == Executing(true) && s1.tasks[id].attempts == s.tasks[id].attempts + 1;
    assert InstanceInv(s1.tasks[id], s.job.maxFailure);
    assert s1.job == s.job.(runCount := s1.job.runCount);
  }

  lemma TwoSteps(s: State, a: Step, b: Step, rest: seq<Step>)
    requires Enabled(s, a) && Enabled(Apply(s, a), b)
    ensures Execute(s, [a, b] + rest) == Execute(Apply(Apply(s, a), b), rest)
  {
    assert ([a, b] + rest)[1..] == [b] + rest;
    assert ([b] + rest)[1..] == rest;
  }

  /** And such an execution exists: an admitted instance does get all its attempts. */
  lemma {:induction false} AllAttemptsHappen(s: State, id: TaskId) returns (steps: seq<Step>)
    requires MayRun(s, id)
    ensures OnlyRaises(s.job, steps, id) && Execute(s, steps).Some?
    ensures var t := Execute(s, steps).value.tasks; id in t && t[id].failed && t[id].attempts == s.job.maxFailure + 1
    decreases s.job.maxFailure - s.tasks[id].attempts
  {
    var s2 := Apply(Apply(s, Start(id)), Run(id, Raises, false));
    OneAttempt(s, id);
    var rest;
    if s.tasks[id].attempts < s.job.maxFailure {
      rest := AllAttemptsHappen(s2, id);
    } else {
      rest := [Finish(id)];
      assert rest[1..] == [];
      assert Execute(s2, rest) == Execute(Apply(s2, Finish(id)), []);
    }
    steps := [Start(id), Run(id, Raises, false)] + rest;
    TwoSteps(s, Start(id), Run(id, Raises, false), rest);
    forall i | 0 <= i < |steps| ensures KeepsRaising(s.job, steps[i], id) {
      assert i >= 2 ==> steps[i] == rest[i - 2];
    }
  }

  // ---------------------------------------------------------------- main results: the bound

  ghost predicate Bounded(j: Job) {
    !j.runForever && j.maxRun.Some? ==> j.runCount <= j.maxRun.value
  }

  /** A job runs forever only without a positive max_run. */
  ghost predicate ForeverUnbounded(j: Job) {
    j.runForever ==> j.maxRun == None || j.maxRun == Some(0)
  }

  /** The one kind of update that gets past the check: it leaves a max_run of zero on a job
      that has run and that an end date, COUNT or UNTIL keeps from running forever. */
  predicate SlipsThrough(j: Job, c: Change) {
    EffectiveMax(j, c) == Some(0) && c.bounded && 0 < j.runCount
  }

  /** Accepted updates keep run_count within max_run exactly when they do not slip through. */
  lemma UpdateExact(j: Job, c: Change)
    requires Bounded(j) && ForeverUnbounded(j) && Accepts(j, c)
    ensures Bounded(Update(j, c)) <==> !SlipsThrough(j, c)
    ensures ForeverUnbounded(Update(j, c))
  {}

  ghost predicate NoSlip(s: State, steps: seq<Step>)
    requires Execute(s, steps).Some?
    decreases |steps|
  {
    steps != [] ==>
      && (steps[0].Change_? && Accepts(s.job, steps[0].change) ==> !SlipsThrough(s.job, steps[0].change))
      && NoSlip(Apply(s, steps[0]), steps[1..])
  }

  /** Over every interleaving of scheduled, workflow and manual starts, retries, auto-drops
      and updates, run_count never exceeds max_run on a job that does not run forever. */
  lemma {:induction false} RunCountBounded(s: State, steps: seq<Step>)
    requires Bounded(s.job) && ForeverUnbounded(s.job) && Execute(s, steps).Some? && NoSlip(s, steps)
    ensures Bounded(Execute(s, steps).value.job)
    decreases |steps|
  {
    if steps != [] {
      RunCountBounded(Apply(s, steps[0]), steps[1..]);
    }
  }

  // ---------------------------------------------------------------- main results: auto-drop

  ghost predicate Frozen(j: Job) {
    !j.runForever && j.maxRun == Some(j.runCount)
  }

  /** after_return of an auto-drop job freezes it. */
  lemma AutoDropFreezes(j: Job, t: Instance, latest: Latest)
    requires j.autoDrop
    ensures Frozen(AfterReturn(j, t, latest).0) && AfterReturn(j, t, latest).0.runCount == j.runCount
  {}

  /** The beat scheduler's filter. */
  predicate BeatLists(j: Job, ended: bool) {
    j.isEnable && !(!j.runForever && (ended || (j.maxRun.Some? && j.runCount >= j.maxRun.value)))
  }

  /** The beat scheduler lists a job that is enabled and either runs forever, or has not ended and
      has runs left; a first attempt of it would not be cancelled. */
  lemma BeatExactly(j: Job, ended: bool, manual: bool, workflowRun: bool, late: bool)
    ensures BeatLists(j, ended) <==>
      j.isEnable && (j.runForever || (!ended && (j.maxRun.None? || j.runCount < j.maxRun.value)))
    ensures BeatLists(j, ended) ==> !Exhausted(j, NewInstance(manual, workflowRun, late))
  {}

  /** A frozen job is refused everywhere: a first attempt is not admitted, no next entry is
      created, a workflow run leaves it out, and the beat scheduler does not list it. */
  lemma FrozenRefusedEverywhere(j: Job, t: Instance, row: R.JobRow, runStart: int, workerStart: int, ended: bool)
    requires Frozen(j)
    requires row.runCount == j.runCount && row.maxRun == Some(j.runCount) && !row.runForever
    ensures t.retryCount == 0 ==> !Admits(j, t)
    ensures !Reschedules(BeforeStart(j, t).0, t)
    ensures !R.TakesPart(row, runStart, workerStart)
    ensures !BeatLists(j, ended)
  {}

  /** The update leaves max_run at run_count, and, if that is 0, the job bounded. */
  predicate KeepsFrozen(j: Job, c: Change) {
    && (c.maxRun == None || (c.maxRun == Some(Some(0)) && j.runCount == 0))
    && (j.runCount == 0 ==> c.bounded)
  }

  /** Exactly these accepted updates leave a frozen job frozen; any other one thaws it. */
  lemma ThawExact(j: Job, c: Change)
    requires Frozen(j) && Accepts(j, c)
    ensures Frozen(Update(j, c)) <==> KeepsFrozen(j, c)
    ensures Update(j, c).runCount == j.runCount
  {}

  ghost predicate NoThaw(s: State, steps: seq<Step>)
    requires Execute(s, steps).Some?
    decreases |steps|
  {
    steps != [] ==>
      && (steps[0].Change_? && Accepts(s.job, steps[0].change) ==> KeepsFrozen(s.job, steps[0].change))
      && NoThaw(Apply(s, steps[0]), steps[1..])
  }

  /** No hook counts an instance of a frozen job. */
  lemma FrozenHook(s: State, step: Step)
    requires Frozen(s.job) && Enabled(s, step) && !step.Change_?
    ensures var s' := Apply(s, step);
      && Frozen(s'.job) && s'.job.runCount == s.job.runCount && s'.entries == s.entries
      && s'.tasks == s.tasks[step.id := s'.tasks[step.id]]
      && (s'.tasks[step.id].counted <==> step.id in Counted(s.tasks))
  {}

  lemma FrozenStep(s: State, step: Step)
    requires Frozen(s.job) && Enabled(s, step)
    requires step.Change_? && Accepts(s.job, step.change) ==> KeepsFrozen(s.job, step.change)
    ensures var s' := Apply(s, step);
      && Frozen(s'.job) && s'.job.runCount == s.job.runCount
      && Counted(s'.tasks) == Counted(s.tasks) && s'.entries == s.entries
  {
    var s' := Apply(s, step);
    if !step.Change_? {
      FrozenHook(s, step);
      PutCounted(s.tasks, step.id, s'.tasks[step.id]);
    }
  }

  /** Until an accepted update thaws the job, run_count, the instances admitted and the entries created stay as
      they were, whatever was still queued. */
  lemma {:induction false} FrozenStays(s: State, steps: seq<Step>)
    requires Frozen(s.job) && Execute(s, steps).Some? && NoThaw(s, steps)
    ensures var s' := Execute(s, steps).value;
      && Frozen(s'.job) && s'.job.runCount == s.job.runCount
      && Counted(s'.tasks) == Counted(s.tasks)
      && s'.entries == s.entries
    decreases |steps|
  {
    if steps != [] {
      FrozenStep(s, steps[0]);
      FrozenStays(Apply(s, steps[0]), steps[1..]);
    }
  }

  // ---------------------------------------------------------------- when the next entry is created

  /** For a job within its bound, the hook of an automatic first attempt creates the next entry
      exactly if an instance started from it would still be within the bound, unless the
      instance belongs to a workflow run or the job is disabled. */
  lemma SchedulesWithinBound(j: Job, t: Instance, late: bool)
    requires Bounded(j) && (j.runForever || j.maxRun.Some?)
    ensures Reschedules(j, t) <==>
      && !DropsIgnore(j, t) && !t.manual && t.requestRetries == 0
      && !Exhausted(j, NewInstance(false, false, late))
  {}

  /** Entries are created by the hook before a start and by nothing else, one at a time; an instance
      arrives queued, without attempts or retries, and uncounted; and an update can arrive at
      any time. */
  lemma EntriesExact(s: State, step: Step)
    ensures step.Change_? ==> Enabled(s, step)
    ensures Enabled(s, step) ==>
      var s' := Apply(s, step);
      && s'.entries == s.entries + (if step.Start? && Reschedules(s'.job, s.tasks[step.id]) then 1 else 0)
      && (step.Arrive? ==> s' == s.(tasks := s.tasks[step.id :=
        Instance(step.manual, step.workflowRun, step.late, 0, 0, CREATED, Queued, 0, false, false)]))
  {}

  // ---------------------------------------------------------------- a refused instance that runs

  /** A refused instance should not run its body. It does, exactly when it belongs to a workflow
      run or its job is disabled: there the refusal is dropped on the way out of the hook. */
  lemma RefusedYetRuns(j: Job, t: Instance)
    requires !Admits(j, t)
    ensures BeforeStart(j, t).1.phase.Executing? <==> t.workflowRun || !j.isEnable
    ensures BeforeStart(j, t).0 == j && BeforeStart(j, t).1.counted == t.counted
  {}

  /** When such a body succeeds, the row keeps the status of the refusal. */
  lemma RefusedNeverSucceeds(j: Job, t: Instance)
    requires !Admits(j, t) && DropsIgnore(j, t)
    ensures var (j1, t1) := BeforeStart(j, t);
      && t1.phase.Executing?
      && var (j2, t2) := Call(j1, t1, Succeeds, false);
         && t2.phase.Settling?
         && Settle(j2, t2).1.status == (if Skips(j, t) then SKIPPED else CANCELLED)
         && Settle(j2, t2).0 == j
  {}

  /** Such a body can still fail for good and move failure_count, without ever being counted. */
  lemma RefusedCanFail(j: Job, t: Instance)
    requires t == NewInstance(false, false, false) && !j.inWorkflow && !j.isEnable && !j.restartOnFailure
    ensures var (j1, t1) := BeforeStart(j, t);
      && t1.phase.Executing?
      && var (j2, t2) := Call(j1, t1, Raises, false);
         && t2.phase == Settling(false, false)
         && var (j3, t3) := Settle(j2, t2);
            j3.failureCount == j.failureCount + 1 && j3.runCount == j.runCount && !t3.counted
  {}

  // ---------------------------------------------------------------- the hooks, step by step

  /** The whole hook, in terms of the rows: who is skipped or cancelled, that a refusal keeps the body
      from running unless the hook returns early, what is counted, and whether the next entry
      is created. */
  lemma StartExactly(j: Job, t: Instance)
    ensures var (j1, t1) := BeforeStart(j, t);
      var out := !t.manual && ((j.inWorkflow && !t.workflowRun) || !j.isEnable || (t.late && !j.restartable));
      var spent := !j.runForever && j.maxRun == Some(j.runCount) && t.retryCount == 0;
      var admitted, first := !out && !spent, t.retryCount == 0;
      && t1 == t.(
        status := if out then SKIPPED else if spent then CANCELLED else NONE,
        phase := if admitted || t.workflowRun || !j.isEnable then Executing(admitted) else Ignored,
        attempts := t.attempts + (if admitted || t.workflowRun || !j.isEnable then 1 else 0),
        counted := t.counted || (admitted && first))
      && j1 == j.(runCount := j.runCount + if admitted && first then 1 else 0)
      && (Reschedules(j1, t) <==>
        && !t.workflowRun && j.isEnable && !t.manual && t.requestRetries == 0
        && (j.runForever || (j.maxRun.Some? && j1.runCount < j.maxRun.value)))
  {}

  class JobSettings {
    var inWorkflow: bool
    var isEnable: bool
    var runForever: bool
    var maxRun: Option<nat>
    var maxFailure: nat
    var autoDrop: bool
    var restartOnFailure: bool
    var restartable: bool
    var runCount: nat
    var failureCount: nat
    var retryCount: nat

    ghost function View(): Job
      reads this
    {
      Job(inWorkflow, isEnable, runForever, maxRun, maxFailure, autoDrop, restartOnFailure, restartable,
        runCount, failureCount, retryCount)
    }

    method IncreaseRunCount()
      modifies this`runCount
      ensures View() == old(View()).(runCount := old(runCount) + 1)
    {
      runCount := runCount + 1;
    }

    method IncreaseFailureCount()
      modifies this`failureCount
      ensures View() == old(View()).(failureCount := old(failureCount) + 1)
    {
      failureCount := failureCount + 1;
    }

    method IncreaseRetryCount()
      modifies this`retryCount
      ensures View() == old(View()).(retryCount := old(retryCount) + 1)
    {
      retryCount := retryCount + 1;
    }
  }

  class TaskDetail {
    var manual: bool
    var workflowRun: bool
    var late: bool
    var retryCount: nat
    var requestRetries: nat
    var status: TaskStatus
    var phase: Phase
    var attempts: nat
    var counted: bool
    var failed: bool

    ghost function View(): Instance
      reads this
    {
      Instance(manual, workflowRun, late, retryCount, requestRetries, status, phase, attempts, counted, failed)
    }
  }

  lemma MarkCases(j: Job, t: Instance)
    ensures Skips(j, t) ==> MarkStart(j, t) == t.(status := SKIPPED) && CountStart(j, t) == j
    ensures !Skips(j, t) && Exhausted(j, t) ==> MarkStart(j, t) == t.(status := CANCELLED) && CountStart(j, t) == j
    ensures Admits(j, t) && t.retryCount == 0 ==>
      MarkStart(j, t) == t.(status := NONE, counted := true) && CountStart(j, t) == j.(runCount := j.runCount + 1)
    ensures Admits(j, t) && t.retryCount != 0 ==> MarkStart(j, t) == t.(status := NONE) && CountStart(j, t) == j
  {}

  /** The first half of before_start: decide, mark the row, count an admitted first attempt. */
  method Admit(job: JobSettings, task: TaskDetail) returns (skipped: bool)
    modifies job`runCount, task`status, task`counted
    ensures skipped <==> !Admits(old(job.View()), old(task.View()))
    ensures job.View() == CountStart(old(job.View()), old(task.View()))
    ensures task.View() == MarkStart(old(job.View()), old(task.View()))
  {
    MarkCases(job.View(), task.View());
    skipped := false;
    if !task.manual
       && ((job.inWorkflow && !task.workflowRun) || !job.isEnable || (task.late && !job.restartable)) {
      task.status := SKIPPED;
      return true;
    }
    if job.maxRun == Some(job.runCount) && !job.runForever && task.retryCount == 0 {
      task.status := CANCELLED;
      return true;
    }
    task.status := NONE;
    if task.retryCount == 0 {
      job.IncreaseRunCount();
      task.counted := true;
    }
  }

  /** _handle_before_start_scheduling: is the next entry created? For an automatic first attempt
      within the bound, exactly if an instance started from it would be admitted by the bound. */
  method HandleScheduling(job: JobSettings, task: TaskDetail, onRetry: bool) returns (created: bool)
    ensures Bounded(job.View()) && (job.runForever || job.maxRun.Some?) && !task.manual && !onRetry ==>
      (created <==> !Exhausted(job.View(), NewInstance(false, false, task.late)))
    ensures created <==>
      (job.runForever || (job.maxRun.Some? && job.runCount < job.maxRun.value)) && !task.manual && !onRetry
  {
    created := (job.runForever || (job.maxRun.Some? && job.runCount < job.maxRun.value)) && !task.manual && !onRetry;
  }

  method BeforeStartHook(job: JobSettings, task: TaskDetail) returns (created: bool)
    requires task.phase.Queued?
    modifies job`runCount, task`status, task`phase, task`attempts, task`counted
    ensures job.View() == BeforeStart(old(job.View()), old(task.View())).0
    ensures task.View() == BeforeStart(old(job.View()), old(task.View())).1
    ensures created <==> Reschedules(job.View(), old(task.View()))
  {
    var skipped := Admit(job, task);
    // the finally block: its early return drops a pending Ignore
    var returnsEarly := task.workflowRun || !job.isEnable;
    if skipped && !returnsEarly {
      task.phase := Ignored;
    } else {
      task.phase := Executing(!skipped);
      task.attempts := task.attempts + 1;
    }
    if returnsEarly {
      return false;
    }
    created := HandleScheduling(job, task, task.requestRetries != 0);
  }

  method CallHook(job: JobSettings, task: TaskDetail, result: BodyResult, revoked: bool)
    requires task.phase.Executing?
    modifies job`retryCount, task`retryCount, task`requestRetries, task`status, task`phase
    ensures (job.View(), task.View()) == Call(old(job.View()), old(task.View()), result, revoked)
    ensures revoked ==> task.phase == Revoked && task.retryCount == old(task.retryCount)
    ensures !revoked && result == Raises && job.restartOnFailure && !job.autoDrop
            && old(task.retryCount) < job.maxFailure && old(task.requestRetries) < job.maxFailure ==>
      && task.phase == Queued && task.status == FAILED && job.retryCount == old(job.retryCount) + 1
      && task.retryCount == old(task.retryCount) + 1 && task.requestRetries == old(task.requestRetries) + 1
    ensures !revoked && result == Raises && job.restartOnFailure && !job.autoDrop
            && old(task.retryCount) < job.maxFailure <= old(task.requestRetries) ==>
      && task.phase == Settling(false, old(task.phase.admitted)) && task.status == old(task.status)
      && task.retryCount == old(task.retryCount) + 1 && job.retryCount == old(job.retryCount) + 1
    ensures !revoked && !(result == Raises && job.restartOnFailure && !job.autoDrop
                          && old(task.retryCount) < job.maxFailure) ==>
      && task.phase == Settling(result == Succeeds, old(task.phase.admitted)) && task.status == old(task.status)
      && task.retryCount == old(task.retryCount) && job.retryCount == old(job.retryCount)
  {
    if revoked {
      task.phase := Revoked;
      return;
    }
    if result == Raises {
      if job.restartOnFailure && task.retryCount < job.maxFailure && !job.autoDrop {
        task.retryCount := task.retryCount + 1;
        job.IncreaseRetryCount();
        if task.requestRetries + 1 > job.maxFailure {
          task.phase := Settling(false, task.phase.admitted);
        } else {
          task.requestRetries := task.requestRetries + 1;
          task.status := FAILED;
          task.phase := Queued;
        }
        return;
      }
      task.phase := Settling(false, task.phase.admitted);
      return;
    }
    task.phase := Settling(result == Succeeds, task.phase.admitted);
  }

  method SettleHook(job: JobSettings, task: TaskDetail)
    requires task.phase.Settling?
    modifies job`failureCount, task`status, task`phase, task`failed
    ensures (job.View(), task.View()) == Settle(old(job.View()), old(task.View()))
    ensures task.phase == Returning
    ensures old(task.phase).success ==>
      && job.failureCount == old(job.failureCount) && task.failed == old(task.failed)
      && task.status == if old(task.phase).cached then SUCCEED else old(task.status)
    ensures !old(task.phase).success ==>
      job.failureCount == old(job.failureCount) + 1 && task.failed && task.status == FAILED
  {
    if task.phase.success {
      if task.phase.cached {
        task.status := SUCCEED;
      }
    } else {
      task.status := FAILED;
      job.IncreaseFailureCount();
      task.failed := true;
    }
    task.phase := Returning;
  }

  method AfterReturnHook(job: JobSettings, task: TaskDetail, latest: Latest)
    requires task.phase.Returning?
    modifies job`maxRun, job`runForever, job`retryCount, task`retryCount, task`phase
    ensures (job.View(), task.View()) == AfterReturn(old(job.View()), old(task.View()), latest)
    ensures task.phase == Closed
    ensures job.autoDrop ==> !job.runForever && job.maxRun == Some(job.runCount)
    ensures !job.autoDrop ==> job.runForever == old(job.runForever) && job.maxRun == old(job.maxRun)
    ensures if latest == NoneHasRun || (latest == Itself && !job.runForever && job.maxRun == None)
      then task.retryCount == old(task.retryCount) && job.retryCount == old(job.retryCount)
      else task.retryCount == job.retryCount == 0
  {
    if job.autoDrop {
      job.maxRun := Some(job.runCount);
      job.runForever := false;
    }
    task.phase := Closed;
    if latest == NoneHasRun || (latest == Itself && !job.runForever && job.maxRun == None) {
      return;
    }
    task.retryCount := 0;
    job.retryCount := 0;
  }

  /** validate_time_stub and change_job_settings. */
  method UpdateJob(job: JobSettings, c: Change) returns (accepted: bool)
    modifies job`maxRun, job`runForever, job`isEnable, job`autoDrop, job`restartOnFailure, job`maxFailure
    ensures accepted == Accepts(old(job.View()), c)
    ensures job.View() == if accepted then Update(old(job.View()), c) else old(job.View())
    // a number other than 0 must be above run_count
    ensures accepted <==>
      !c.datesRefused && match c.maxRun case Some(Some(n)) => n == 0 || job.runCount < n case _ => true
    ensures accepted ==>
      && job.maxRun == (match c.maxRun case Some(max) => max case None => old(job.maxRun))
      && (job.runForever <==> !c.bounded && (job.maxRun == None || job.maxRun == Some(0)))
      && job.isEnable == c.isEnable && job.autoDrop == c.autoDrop
      && job.restartOnFailure == c.restartOnFailure && job.maxFailure == c.maxFailure
  {
    var max := if c.maxRun.Some? then c.maxRun.value else job.maxRun;
    var forever := if c.bounded || (max.Some? && max.value != 0) then false else true;
    if c.maxRun.Some? && c.maxRun.value.Some? && c.maxRun.value.value != 0 {
      if c.maxRun.value.value <= job.runCount {
        return false;
      }
    }
    if c.datesRefused {
      return false;
    }
    job.runForever := forever;
    job.maxRun := max;
    job.isEnable, job.autoDrop := c.isEnable, c.autoDrop;
    job.restartOnFailure, job.maxFailure := c.restartOnFailure, c.maxFailure;
    return true;
  }
}
