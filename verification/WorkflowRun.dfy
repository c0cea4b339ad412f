/** One workflow run on the worker side: its priority groups are dispatched one chord at a
    time, and the callback of a chord either queues the next group or closes the run. */
module WorkflowRun {
  import opened Wrappers
  import opened WorkflowScheduling

  datatype Verdict = SUCCESS | FAILED

  /** A task of a run: the number of its group and its place in the group. */
  datatype Pos = Pos(group: nat, index: nat)

  datatype Phase =
    | Created            // the run row exists, its marker file is not yet written
    | Marked             // the marker is on disk; the first group is not yet sent
    | Queued             // a run_priority_group message for group `next` is in the broker
    | Waiting            // the chord of group `next - 1` is out
    | Closing(v: Verdict)   // the callback decided to end the run
    | Reported(v: Verdict)  // the run row was updated; the marker is still on disk
    | Done(v: Verdict)

  datatype Run = Run(
    orders: seq<seq<Task>>,
    next: nat,                 // groups dispatched so far
    phase: Phase,
    dispatched: seq<Pos>,      // every dispatch, in order
    returned: map<Pos, bool>,  // results so far: true is a success
    reports: nat)              // how often the run row was closed

  function Begin(orders: seq<seq<Task>>): Run {
    Run(orders, 0, Created, [], map[], 0)
  }

  /** The conjunction of the flags of a group; without tasks the flag stays unset, which
      counts as false. */
  predicate AllIgnore(group: seq<Task>) {
    group != [] && forall t :: t in group ==> t.ignoreResult
  }

  function GroupPositions(orders: seq<seq<Task>>, g: nat): seq<Pos>
    requires g < |orders|
  {
    seq(|orders[g]|, k requires 0 <= k => Pos(g, k))
  }

  predicate AllReturned(orders: seq<seq<Task>>, returned: map<Pos, bool>, g: nat)
    requires g < |orders|
  {
    forall k :: 0 <= k < |orders[g]| ==> Pos(g, k) in returned
  }

  predicate AnyFailed(orders: seq<seq<Task>>, returned: map<Pos, bool>, g: nat)
    requires g < |orders|
  {
    exists k :: 0 <= k < |orders[g]| && Pos(g, k) in returned && !returned[Pos(g, k)]
  }

  predicate Blocks(orders: seq<seq<Task>>, returned: map<Pos, bool>, g: nat)
    requires g < |orders|
  {
    AnyFailed(orders, returned, g) && !AllIgnore(orders[g])
  }

  // ---------------------------------------------------------------- steps

  datatype Step =
    | SaveMarker
    | SendFirst
    | DispatchGroup
    | Return(pos: Pos, ok: bool)
    | Callback
    | Report
    | DropMarker

  predicate Enabled(r: Run, step: Step) {
    match step
    case SaveMarker => r.phase.Created?
    case SendFirst => r.phase.Marked? && r.orders != []
    case DispatchGroup => r.phase.Queued? && r.next < |r.orders|
    case Return(pos, ok) =>
      && r.phase.Waiting? && 0 < r.next <= |r.orders|
      && pos.group == r.next - 1 && pos.index < |r.orders[r.next - 1]| && pos !in r.returned
    case Callback => r.phase.Waiting? && 0 < r.next <= |r.orders| && AllReturned(r.orders, r.returned, r.next - 1)
    case Report => r.phase.Closing?
    case DropMarker => r.phase.Reported?
  }

  function Apply(r: Run, step: Step): Run
    requires Enabled(r, step)
  {
    match step
    case SaveMarker => r.(phase := Marked)
    case SendFirst => r.(phase := Queued)
    case DispatchGroup =>
      r.(phase := Waiting, next := r.next + 1, dispatched := r.dispatched + GroupPositions(r.orders, r.next))
    case Return(pos, ok) => r.(returned := r.returned[pos := ok])
    case Callback =>
      if Blocks(r.orders, r.returned, r.next - 1) then r.(phase := Closing(FAILED))
      else if r.next < |r.orders| then r.(phase := Queued)
      else r.(phase := Closing(SUCCESS))
    case Report => r.(phase := Reported(r.phase.v), reports := r.reports + 1)
    case DropMarker => r.(phase := Done(r.phase.v))
  }

  function Execute(r: Run, steps: seq<Step>): Option<Run>
    decreases |steps|
  {
    if steps == [] then Some(r)
    else if Enabled(r, steps[0]) then Execute(Apply(r, steps[0]), steps[1..])
    else None
  }

  ghost predicate Reachable(r: Run) {
    exists steps :: Execute(Begin(r.orders), steps) == Some(r)
  }

  // ---------------------------------------------------------------- the specification

  /** What a run should come to, given the result of every task: groups from `g` on are taken
      in order until one blocks. Returns how many groups are dispatched and the verdict. */
  ghost function Outcome(orders: seq<seq<Task>>, succeeds: Pos -> bool, g: nat): (o: (nat, Verdict))
    requires g < |orders|
    decreases |orders| - g
  {
    if GroupBlocks(orders, succeeds, g) then (g + 1, FAILED)
    else if g + 1 == |orders| then (g + 1, SUCCESS)
    else Outcome(orders, succeeds, g + 1)
  }

  ghost predicate GroupBlocks(orders: seq<seq<Task>>, succeeds: Pos -> bool, g: nat)
    requires g < |orders|
  {
    && (exists k: nat :: k < |orders[g]| && !succeeds(Pos(g, k)))
    && exists t :: t in orders[g] && !t.ignoreResult
  }

  /** The dispatched groups are those up to and including the first blocking one, and the
      verdict is FAILED exactly when there is one. */
  lemma {:induction false} OutcomeMeaning(orders: seq<seq<Task>>, succeeds: Pos -> bool, g: nat)
    requires g < |orders|
    ensures var (n, v) := Outcome(orders, succeeds, g);
      && g < n <= |orders|
      && (forall h :: g <= h < n - 1 ==> !GroupBlocks(orders, succeeds, h))
      && (v == FAILED <==> exists h :: g <= h < |orders| && GroupBlocks(orders, succeeds, h))
      && (if v == FAILED then GroupBlocks(orders, succeeds, n - 1) else n == |orders|)
    decreases |orders| - g
  {
    if !GroupBlocks(orders, succeeds, g) && g + 1 < |orders| {
      OutcomeMeaning(orders, succeeds, g + 1);
    }
  }

  // ---------------------------------------------------------------- the invariant

  function PositionsUpTo(orders: seq<seq<Task>>, n: nat): seq<Pos>
    requires n <= |orders|
  {
    if n == 0 then [] else PositionsUpTo(orders, n - 1) + GroupPositions(orders, n - 1)
  }

  ghost predicate ValidPos(orders: seq<seq<Task>>, p: Pos, n: nat) {
    p.group < n && p.group < |orders| && p.index < |orders[p.group]|
  }

  /** How many groups are known to have returned completely. */
  function Settled(r: Run): nat {
    if r.phase.Waiting? && 0 < r.next then r.next - 1 else r.next
  }

  ghost predicate Inv(r: Run) {
    && 0 < |r.orders| && r.next <= |r.orders|
    && (r.phase.Created? || r.phase.Marked? ==> r.next == 0)
    && (r.phase.Queued? ==> r.next < |r.orders|)
    && (r.phase.Waiting? || r.phase.Closing? || r.phase.Reported? || r.phase.Done? ==> 0 < r.next)
    && r.dispatched == PositionsUpTo(r.orders, r.next)
    && (forall p :: p in r.returned ==> ValidPos(r.orders, p, r.next))
    && (forall g :: 0 <= g < Settled(r) ==> AllReturned(r.orders, r.returned, g))
    && (forall g :: 0 <= g < Settled(r) && !Ended(r) ==> !Blocks(r.orders, r.returned, g))
    && (Ended(r) ==> EndedWell(r))
    && r.reports == if r.phase.Reported? || r.phase.Done? then 1 else 0
  }

  predicate Ended(r: Run) {
    r.phase.Closing? || r.phase.Reported? || r.phase.Done?
  }

  ghost predicate EndedWell(r: Run)
    requires Ended(r) && 0 < r.next <= |r.orders|
  {
    && (forall g :: 0 <= g < r.next - 1 ==> !Blocks(r.orders, r.returned, g))
    && (Blocks(r.orders, r.returned, r.next - 1) <==> r.phase.v == FAILED)
    && (r.phase.v == SUCCESS ==> r.next == |r.orders|)
  }

  lemma ReturnKeepsInv(r: Run, pos: Pos, ok: bool)
    requires Inv(r) && Enabled(r, Return(pos, ok))
    ensures Inv(Apply(r, Return(pos, ok)))
  {
    var r' := Apply(r, Return(pos, ok));
    forall g | 0 <= g < r.next - 1
      ensures AllReturned(r'.orders, r'.returned, g)
      ensures Blocks(r'.orders, r'.returned, g) <==> Blocks(r.orders, r.returned, g)
    {
      assert AllReturned(r.orders, r.returned, g);
      forall k | 0 <= k < |r.orders[g]|
        ensures Pos(g, k) in r.returned && r'.returned[Pos(g, k)] == r.returned[Pos(g, k)]
      {}
    }
  }

  lemma StepKeepsInv(r: Run, step: Step)
    requires Inv(r) && Enabled(r, step)
    ensures Inv(Apply(r, step)) && Apply(r, step).orders == r.orders
  {
    if step.Return? {
      ReturnKeepsInv(r, step.pos, step.ok);
    }
  }

  lemma {:induction false} ExecuteKeepsInv(r: Run, steps: seq<Step>)
    requires Inv(r) && Execute(r, steps).Some?
    ensures Inv(Execute(r, steps).value)
    decreases |steps|
  {
    if steps != [] {
      StepKeepsInv(r, steps[0]);
      ExecuteKeepsInv(Apply(r, steps[0]), steps[1..]);
    }
  }

  lemma ReachableInv(r: Run)
    requires Reachable(r) && r.orders != []
    ensures Inv(r)
  {
    var steps :| Execute(Begin(r.orders), steps) == Some(r);
    ExecuteKeepsInv(Begin(r.orders), steps);
  }

  // ---------------------------------------------------------------- main results

  lemma {:induction false} PositionsUpToAre(orders: seq<seq<Task>>, n: nat)
    requires n <= |orders|
    ensures forall p :: p in PositionsUpTo(orders, n) <==> ValidPos(orders, p, n)
    ensures forall i, j :: 0 <= i < j < |PositionsUpTo(orders, n)| ==>
      PositionsUpTo(orders, n)[i] != PositionsUpTo(orders, n)[j]
  {
    if n > 0 {
      PositionsUpToAre(orders, n - 1);
      var before, last := PositionsUpTo(orders, n - 1), GroupPositions(orders, n - 1);
      forall p | ValidPos(orders, p, n) ensures p in before + last {
        if p.group == n - 1 {
          assert last[p.index] == p;
        }
      }
      forall p | p in before + last ensures ValidPos(orders, p, n) {}
      forall i, j | 0 <= i < j < |before + last| ensures (before + last)[i] != (before + last)[j] {
        if i < |before| <= j {
          assert before[i] in before;
        }
      }
    }
  }

  /** No task is dispatched before every task of every earlier group has returned, and only
      dispatched tasks return. */
  lemma NoEarlyDispatch(r: Run, p: Pos, q: Pos)
    requires Reachable(r) && r.orders != []
    ensures p in r.dispatched && q.group < p.group && ValidPos(r.orders, q, |r.orders|) ==> q in r.returned
    ensures p in r.returned ==> p in r.dispatched
  {
    ReachableInv(r);
    PositionsUpToAre(r.orders, r.next);
    if p in r.dispatched && q.group < p.group && ValidPos(r.orders, q, |r.orders|) {
      assert AllReturned(r.orders, r.returned, q.group);
    }
  }

  /** Every task is dispatched at most once, and exactly once when the run ends in SUCCESS. */
  lemma DispatchedOnce(r: Run)
    requires Reachable(r) && r.orders != []
    ensures forall i, j :: 0 <= i < j < |r.dispatched| ==> r.dispatched[i] != r.dispatched[j]
    ensures forall p :: p in r.dispatched ==> ValidPos(r.orders, p, |r.orders|)
    ensures r.phase == Done(SUCCESS) ==> forall p :: ValidPos(r.orders, p, |r.orders|) ==> p in r.dispatched
  {
    ReachableInv(r);
    PositionsUpToAre(r.orders, r.next);
  }

  ghost predicate Agrees(r: Run, succeeds: Pos -> bool) {
    forall p :: p in r.returned ==> r.returned[p] == succeeds(p)
  }

  lemma BlocksAgree(r: Run, succeeds: Pos -> bool, g: nat)
    requires g < |r.orders| && Agrees(r, succeeds) && AllReturned(r.orders, r.returned, g)
    ensures Blocks(r.orders, r.returned, g) <==> GroupBlocks(r.orders, succeeds, g)
  {
    if AnyFailed(r.orders, r.returned, g) {
      var k :| 0 <= k < |r.orders[g]| && Pos(g, k) in r.returned && !r.returned[Pos(g, k)];
      assert !succeeds(Pos(g, k));
    }
  }

  lemma {:induction false} OutcomeFrom(r: Run, succeeds: Pos -> bool, g: nat)
    requires Inv(r) && Ended(r) && Agrees(r, succeeds) && g < r.next
    ensures Outcome(r.orders, succeeds, g) == (r.next, r.phase.v)
    decreases r.next - g
  {
    BlocksAgree(r, succeeds, g);
    if g < r.next - 1 {
      OutcomeFrom(r, succeeds, g + 1);
    }
  }

  /** Refinement: however the returns of each group interleave, an ended run has dispatched
      exactly the groups, and reports exactly the verdict, of the recursive specification. */
  lemma RunRefinesOutcome(r: Run, succeeds: Pos -> bool)
    requires Reachable(r) && r.orders != [] && Ended(r) && Agrees(r, succeeds)
    ensures Outcome(r.orders, succeeds, 0) == (r.next, r.phase.v)
    ensures r.next <= |r.orders| && r.dispatched == PositionsUpTo(r.orders, r.next)
  {
    ReachableInv(r);
    OutcomeFrom(r, succeeds, 0);
  }

  /** The row of a run is closed exactly once, before the run is over and never again. */
  lemma ReportedOnce(r: Run)
    requires Reachable(r) && r.orders != []
    ensures r.reports <= 1
    ensures r.phase.Done? ==> r.reports == 1 && forall step :: !Enabled(r, step)
  {
    ReachableInv(r);
  }

  // ---------------------------------------------------------------- termination

  /** Steps left for the groups from `g` on: one dispatch, one callback and a return per task. */
  function Weight(orders: seq<seq<Task>>, g: nat): nat
    requires g <= |orders|
    decreases |orders| - g
  {
    if g == |orders| then 0 else |orders[g]| + 2 + Weight(orders, g + 1)
  }

  function Unreturned(r: Run, g: nat): set<Pos>
    requires g < |r.orders|
  {
    set k: nat | k < |r.orders[g]| && Pos(g, k) !in r.returned :: Pos(g, k)
  }

  function StepsLeft(r: Run): nat
    requires r.next <= |r.orders| && (r.phase.Waiting? ==> 0 < r.next)
  {
    match r.phase
    case Created => Weight(r.orders, r.next) + 4
    case Marked => Weight(r.orders, r.next) + 3
    case Queued => Weight(r.orders, r.next) + 2
    case Waiting => |Unreturned(r, r.next - 1)| + 1 + Weight(r.orders, r.next) + 2
    case Closing(_) => 2
    case Reported(_) => 1
    case Done(_) => 0
  }

  lemma {:induction false} GroupSize(r: Run, g: nat, n: nat)
    requires g < |r.orders| && n <= |r.orders[g]| && forall k: nat :: Pos(g, k) !in r.returned
    ensures |set k: nat | k < n && Pos(g, k) !in r.returned :: Pos(g, k)| == n
  {
    if n > 0 {
      GroupSize(r, g, n - 1);
      var a := set k: nat | k < n && Pos(g, k) !in r.returned :: Pos(g, k);
      var b := set k: nat | k < n - 1 && Pos(g, k) !in r.returned :: Pos(g, k);
      assert a == b + {Pos(g, n - 1)};
    }
  }

  /** Every step uses up at least one of the steps left, so every run is finite. */
  lemma StepDecreases(r: Run, step: Step)
    requires Inv(r) && Enabled(r, step)
    ensures r.next <= |r.orders| && Inv(Apply(r, step))
    ensures StepsLeft(Apply(r, step)) < StepsLeft(r)
  {
    StepKeepsInv(r, step);
    var r' := Apply(r, step);
    match step
    case DispatchGroup =>
      GroupSize(r', r.next, |r.orders[r.next]|);
    case Return(pos, ok) =>
      var g := r.next - 1;
      assert Unreturned(r', g) == Unreturned(r, g) - {pos};
      assert pos in Unreturned(r, g);
    case _ =>
  }

  lemma {:induction false} ExecutionBounded(r: Run, steps: seq<Step>)
    requires Inv(r) && Execute(r, steps).Some?
    ensures Inv(Execute(r, steps).value)
    ensures |steps| + StepsLeft(Execute(r, steps).value) <= StepsLeft(r)
    decreases |steps|
  {
    if steps != [] {
      StepDecreases(r, steps[0]);
      ExecutionBounded(Apply(r, steps[0]), steps[1..]);
    }
  }

  /** A run never takes more steps than its groups and tasks account for. */
  lemma RunIsFinite(orders: seq<seq<Task>>, steps: seq<Step>)
    requires orders != [] && Execute(Begin(orders), steps).Some?
    ensures |steps| <= Weight(orders, 0) + 4
  {
    ExecutionBounded(Begin(orders), steps);
  }

  /** A run that is not over can always take a step: it never gets stuck between groups. */
  lemma NeverStuck(r: Run) returns (step: Step)
    requires Reachable(r) && r.orders != [] && !r.phase.Done?
    ensures Enabled(r, step)
  {
    ReachableInv(r);
    match r.phase
    case Created => step := SaveMarker;
    case Marked => step := SendFirst;
    case Queued => step := DispatchGroup;
    case Waiting =>
      if AllReturned(r.orders, r.returned, r.next - 1) {
        step := Callback;
      } else {
        var k :| 0 <= k < |r.orders[r.next - 1]| && Pos(r.next - 1, k) !in r.returned;
        step := Return(Pos(r.next - 1, k), true);
      }
    case Closing(_) => step := Report;
    case Reported(_) => step := DropMarker;
  }

  /** Priorities and dispatch order: when the groups are the execution order of a task list,
      a task is dispatched only after every task of a lower priority number has returned. */
  lemma PriorityRespected(r: Run, tasks: seq<Task>, p: Pos, t: Task) returns (q: Pos)
    requires Reachable(r) && IsExecutionOrder(tasks, r.orders) && tasks != []
    requires p in r.dispatched && ValidPos(r.orders, p, |r.orders|)
    requires t in tasks && t.priority < r.orders[p.group][p.index].priority
    ensures ValidPos(r.orders, q, |r.orders|) && r.orders[q.group][q.index] == t && q in r.returned
  {
    NoGroups(tasks, r.orders);
    var g := ConcatMembersInverse(r.orders, t);
    var k :| 0 <= k < |r.orders[g]| && r.orders[g][k] == t;
    q := Pos(g, k);
    assert Uniform(r.orders[g]) && Uniform(r.orders[p.group]);
    assert r.orders[p.group][p.index] in r.orders[p.group];
    assert r.orders[g][0].priority == t.priority;
    assert g < p.group;
    NoEarlyDispatch(r, p, q);
  }

  // ---------------------------------------------------------------- the code, step by step

  /** The worker's tasks on one run; each method is one hook or message handler. */
  class Worker {
    var orders: seq<seq<Task>>
    var next: nat
    var phase: Phase
    var dispatched: seq<Pos>
    var returned: map<Pos, bool>
    var reports: nat

    ghost function View(): Run
      reads this
    {
      Run(orders, next, phase, dispatched, returned, reports)
    }

    constructor (orders: seq<seq<Task>>)
      ensures View() == Begin(orders)
    {
      this.orders := orders;
      next, phase, dispatched, returned, reports := 0, Created, [], map[], 0;
    }

    /** run_priority_group: one signature per task, the ignore flag folded on the way. The
        callback is given the folded flag. */
    method RunPriorityGroup() returns (ignore: Option<bool>)
      requires Enabled(View(), DispatchGroup)
      modifies this`next, this`phase, this`dispatched
      ensures View() == Apply(old(View()), DispatchGroup)
      ensures ignore == Some(true) <==> AllIgnore(orders[old(next)])
      ensures ignore == Some(true) <==>
        orders[old(next)] != [] && forall t :: t in orders[old(next)] ==> t.ignoreResult
    {
      var group, g := orders[next], next;
      var signatures: seq<Pos> := [];
      ignore := None;
      for k := 0 to |group|
        invariant signatures == seq(k, i requires 0 <= i => Pos(g, i))
        invariant (ignore == None <==> k == 0)
        invariant ignore.Some? ==> (ignore.value <==> forall i :: 0 <= i < k ==> group[i].ignoreResult)
      {
        ignore := match ignore
          case None => Some(group[k].ignoreResult)
          case Some(flag) => Some(flag && group[k].ignoreResult);
        signatures := signatures + [Pos(g, k)];
      }
      dispatched := dispatched + signatures;
      next := next + 1;
      phase := Waiting;
    }

    /** handle_group_completion: the results of the chord in header order, and the flag that
        travelled with the callback. */
    method HandleGroupCompletion(results: seq<bool>, ignore: Option<bool>)
      requires Enabled(View(), Callback)
      requires |results| == |orders[next - 1]|
      requires forall k :: 0 <= k < |results| ==> results[k] == returned[Pos(next - 1, k)]
      requires ignore == Some(true) <==> AllIgnore(orders[next - 1])
      modifies this`phase
      ensures View() == Apply(old(View()), Callback)
    {
      var thrown := false;
      for k := 0 to |results|
        invariant thrown <==> exists i :: 0 <= i < k && !results[i]
      {
        if !results[k] {
          thrown := true;
        }
      }
      if AnyFailed(orders, returned, next - 1) {
        ghost var k :| 0 <= k < |results| && Pos(next - 1, k) in returned && !returned[Pos(next - 1, k)];
        assert results[k] == returned[Pos(next - 1, k)];
      }
      assert thrown <==> AnyFailed(orders, returned, next - 1);
      var encounteredError := false;
      var verdict := SUCCESS;
      if thrown && ignore != Some(true) {
        encounteredError := true;
        verdict := FAILED;
      }
      if !encounteredError && |orders[next..]| > 0 {
        phase := Queued;
        return;
      }
      phase := Closing(verdict);
    }
  }

  // ---------------------------------------------------------------- where the groups come from

  datatype JobRow = JobRow(
    jobId: string, functionName: string, queueName: string, priority: int, frequency: Frequency,
    ignoreResult: bool, delay: int, isEnable: bool,
    runCount: int, maxRun: Option<int>, runForever: bool, restartable: bool)

  /** The rows that take part in a run. A row without max_run makes the comparison raise. */
  predicate TakesPart(job: JobRow, runStart: int, workerStart: int) {
    && job.isEnable
    && (job.maxRun.Some? ==> job.runCount < job.maxRun.value || job.runForever)
    && !(!job.restartable && workerStart != 0 && workerStart > runStart)
  }

  predicate Raises(job: JobRow) {
    job.isEnable && job.maxRun.None?
  }

  function ToTask(job: JobRow, taskId: string): Task {
    Task(taskId, job.jobId, job.functionName, job.queueName, job.priority, job.frequency, 1, job.ignoreResult,
      job.delay)
  }

  /** The tasks of the participating rows, in row order. */
  function Participants(jobs: seq<JobRow>, taskIds: seq<string>, runStart: int, workerStart: int): seq<Task>
    requires |taskIds| == |jobs|
  {
    if jobs == [] then []
    else
      var n := |jobs| - 1;
      Participants(jobs[..n], taskIds[..n], runStart, workerStart)
      + if TakesPart(jobs[n], runStart, workerStart) then [ToTask(jobs[n], taskIds[n])] else []
  }

  /** An enabled job with runs left, or running forever, takes part, unless it cannot be restarted
      and the worker started after the run. */
  predicate Eligible(job: JobRow, runStart: int, workerStart: int) {
    && job.isEnable
    && (job.runForever || (job.maxRun.Some? && job.runCount < job.maxRun.value))
    && (job.restartable || workerStart == 0 || workerStart <= runStart)
  }

  /** A task carries the settings of its row. */
  predicate Carries(t: Task, job: JobRow, taskId: string) {
    && t.taskId == taskId && t.name == job.jobId && t.functionName == job.functionName && t.queueName == job.queueName
    && t.priority == job.priority && t.frequency == job.frequency && t.interval == 1
    && t.ignoreResult == job.ignoreResult && t.delay == job.delay
  }

  /** The tasks are those of the eligible rows, one each. */
  ghost predicate OnePerRow(
    tasks: seq<Task>, jobs: seq<JobRow>, taskIds: seq<string>, runStart: int, workerStart: int)
    requires |taskIds| == |jobs|
  {
    && DistinctIds(tasks)
    && (forall t :: t in tasks ==> FromRow(t, jobs, taskIds, runStart, workerStart))
    && forall i :: 0 <= i < |jobs| && Eligible(jobs[i], runStart, workerStart) ==> HasRow(tasks, jobs[i], taskIds[i])
  }

  ghost predicate FromRow(t: Task, jobs: seq<JobRow>, taskIds: seq<string>, runStart: int, workerStart: int)
    requires |taskIds| == |jobs|
  {
    exists i :: 0 <= i < |jobs| && Eligible(jobs[i], runStart, workerStart) && Carries(t, jobs[i], taskIds[i])
  }

  ghost predicate HasRow(tasks: seq<Task>, job: JobRow, taskId: string) {
    exists t :: t in tasks && Carries(t, job, taskId)
  }

  ghost predicate Distinct(ids: seq<string>) {
    forall i, j :: 0 <= i < j < |ids| ==> ids[i] != ids[j]
  }

  lemma {:induction false} ParticipantsFromRows(
    jobs: seq<JobRow>, taskIds: seq<string>, runStart: int, workerStart: int)
    requires |taskIds| == |jobs| && Distinct(taskIds)
    requires forall i :: 0 <= i < |jobs| ==> !Raises(jobs[i])
    ensures OnePerRow(Participants(jobs, taskIds, runStart, workerStart), jobs, taskIds, runStart, workerStart)
    decreases |jobs|
  {
    if jobs != [] {
      var n := |jobs| - 1;
      var ts := Participants(jobs[..n], taskIds[..n], runStart, workerStart);
      var ts' := Participants(jobs, taskIds, runStart, workerStart);
      ParticipantsFromRows(jobs[..n], taskIds[..n], runStart, workerStart);
      assert TakesPart(jobs[n], runStart, workerStart) <==> Eligible(jobs[n], runStart, workerStart);
      forall t | t in ts ensures FromRow(t, jobs, taskIds, runStart, workerStart) && t.taskId != taskIds[n] {
        assert FromRow(t, jobs[..n], taskIds[..n], runStart, workerStart);
        var i :| 0 <= i < n && Eligible(jobs[..n][i], runStart, workerStart)
          && Carries(t, jobs[..n][i], taskIds[..n][i]);
        assert jobs[i] == jobs[..n][i] && taskIds[i] == taskIds[..n][i];
      }
      forall i | 0 <= i < |jobs| && Eligible(jobs[i], runStart, workerStart)
        ensures HasRow(ts', jobs[i], taskIds[i])
      {
        if i < n {
          assert HasRow(ts, jobs[..n][i], taskIds[..n][i]);
        } else {
          assert ToTask(jobs[n], taskIds[n]) in ts' && Carries(ToTask(jobs[n], taskIds[n]), jobs[n], taskIds[n]);
        }
      }
      if TakesPart(jobs[n], runStart, workerStart) {
        var t := ToTask(jobs[n], taskIds[n]);
        assert ts' == ts + [t] && Carries(t, jobs[n], taskIds[n]);
        assert FromRow(t, jobs, taskIds, runStart, workerStart);
      }
    }
  }

  lemma SortedFromRows(tasks: seq<Task>, jobs: seq<JobRow>, taskIds: seq<string>, runStart: int, workerStart: int)
    requires |taskIds| == |jobs| && OnePerRow(tasks, jobs, taskIds, runStart, workerStart)
    ensures OnePerRow(StableSort(tasks), jobs, taskIds, runStart, workerStart)
  {
    SortMembers(tasks);
    SortDistinct(tasks);
    forall i | 0 <= i < |jobs| && Eligible(jobs[i], runStart, workerStart)
      ensures HasRow(StableSort(tasks), jobs[i], taskIds[i])
    {
      assert HasRow(tasks, jobs[i], taskIds[i]);
    }
  }

  /** An enabled row that lacks max_run, or would be scheduled with a priority outside 1..100. */
  predicate Spoils(job: JobRow, runStart: int, workerStart: int) {
    job.isEnable
    && (job.maxRun.None? || (Eligible(job, runStart, workerStart) && !(1 <= job.priority <= 100)))
  }

  lemma OrderFromRows(
    order: seq<seq<Task>>, jobs: seq<JobRow>, taskIds: seq<string>, runStart: int, workerStart: int)
    requires |taskIds| == |jobs| && Distinct(taskIds)
    requires forall i :: 0 <= i < |jobs| ==> !Spoils(jobs[i], runStart, workerStart)
    requires IsExecutionOrder(StableSort(Participants(jobs, taskIds, runStart, workerStart)), order)
    ensures OnePerRow(Concat(order), jobs, taskIds, runStart, workerStart)
  {
    forall i | 0 <= i < |jobs| ensures !Raises(jobs[i]) {
      assert !Spoils(jobs[i], runStart, workerStart);
    }
    ParticipantsFromRows(jobs, taskIds, runStart, workerStart);
    SortedFromRows(Participants(jobs, taskIds, runStart, workerStart), jobs, taskIds, runStart, workerStart);
  }

  datatype OrderError = MissingMaxRun | Refused(error: AddError)

  lemma NextParticipant(jobs: seq<JobRow>, taskIds: seq<string>, runStart: int, workerStart: int, n: nat)
    requires |taskIds| == |jobs| && n < |jobs|
    ensures Participants(jobs[..n + 1], taskIds[..n + 1], runStart, workerStart)
      == if TakesPart(jobs[n], runStart, workerStart)
         then Participants(jobs[..n], taskIds[..n], runStart, workerStart) + [ToTask(jobs[n], taskIds[n])]
         else Participants(jobs[..n], taskIds[..n], runStart, workerStart)
  {
    assert jobs[..n + 1][..n] == jobs[..n] && taskIds[..n + 1][..n] == taskIds[..n];
  }

  /** The scheduler's list after the first `n` rows. */
  ghost predicate Collected(
    tasks: seq<Task>, jobs: seq<JobRow>, taskIds: seq<string>, runStart: int, workerStart: int, n: nat)
    requires |taskIds| == |jobs| && n <= |jobs|
  {
    tasks == StableSort(Participants(jobs[..n], taskIds[..n], runStart, workerStart))
  }

  lemma NextCollected(
    tasks: seq<Task>, tasks': seq<Task>,
    jobs: seq<JobRow>, taskIds: seq<string>, runStart: int, workerStart: int, n: nat)
    requires |taskIds| == |jobs| && n < |jobs| && Collected(tasks, jobs, taskIds, runStart, workerStart, n)
    requires tasks' == if TakesPart(jobs[n], runStart, workerStart)
      then StableSort(tasks + [ToTask(jobs[n], taskIds[n])]) else tasks
    ensures Collected(tasks', jobs, taskIds, runStart, workerStart, n + 1)
  {
    NextParticipant(jobs, taskIds, runStart, workerStart, n);
    SortAppend(Participants(jobs[..n], taskIds[..n], runStart, workerStart), ToTask(jobs[n], taskIds[n]));
  }

  /** _get_orders: filter the rows of a workflow, add each to a fresh scheduler, and ask it for
      the execution order. `taskIds` are the ids drawn for the rows. */
  method GetOrders(jobs: seq<JobRow>, taskIds: seq<string>, runStart: int, workerStart: int)
    returns (r: Result<seq<seq<Task>>, OrderError>)
    requires |taskIds| == |jobs| && Distinct(taskIds)
    ensures r.Ok? ==> IsExecutionOrder(StableSort(Participants(jobs, taskIds, runStart, workerStart)), r.value)
    ensures r.Ok? ==> OnePerRow(Concat(r.value), jobs, taskIds, runStart, workerStart)
    ensures r.Err? <==> exists i :: 0 <= i < |jobs| && Spoils(jobs[i], runStart, workerStart)
  {
    var scheduler := new WorkflowScheduler();
    for n := 0 to |jobs|
      invariant fresh(scheduler) && scheduler.Valid()
      invariant scheduler.validateInterval && scheduler.maxInterval == 1000 && scheduler.maxPriority == 100
      invariant Collected(scheduler.tasks, jobs, taskIds, runStart, workerStart, n)
      invariant forall id :: id in scheduler.taskIds ==> id in taskIds[..n]
      invariant forall i :: 0 <= i < n ==> !Spoils(jobs[i], runStart, workerStart)
    {
      var job := jobs[n];
      ghost var tasks := scheduler.tasks;
      assert taskIds[n] !in taskIds[..n] && taskIds[..n + 1] == taskIds[..n] + [taskIds[n]];
      if !job.isEnable {
        NextCollected(tasks, tasks, jobs, taskIds, runStart, workerStart, n);
        continue;
      }
      if job.maxRun.None? {
        return Err(MissingMaxRun);
      }
      if (job.runCount >= job.maxRun.value && !job.runForever)
         || (!job.restartable && workerStart != 0 && workerStart > runStart) {
        NextCollected(tasks, tasks, jobs, taskIds, runStart, workerStart, n);
        continue;
      }
      var t := ToTask(job, taskIds[n]);
      var added := scheduler.AddTask(t, true);
      if added.Err? {
        return Err(Refused(added.error));
      }
      NextCollected(tasks, scheduler.tasks, jobs, taskIds, runStart, workerStart, n);
    }
    assert jobs[..|jobs|] == jobs && taskIds[..|jobs|] == taskIds;
    var order := scheduler.GetExecutionOrder();
    OrderFromRows(order, jobs, taskIds, runStart, workerStart);
    r := Ok(order);
  }
}
