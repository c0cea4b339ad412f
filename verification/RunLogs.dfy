/** The last-log table as an index of the run logs: every create or update of logs ends by
    looking up the job's newest relevant log and storing its id in the job's one index row. */
module RunLogs {
  import opened Wrappers
  import F = Filters

  type JobId = string

  /** A run log, without the columns the index does not look at. */
  datatype Log = Log(task: Option<string>, job: JobId, operation: Option<string>, status: Option<string>,
    start: Option<int>)

  datatype LastLog = LastLog(job: JobId, log: Option<nat>, start: Option<int>, state: Option<string>)

  // ---------------------------------------------------------------- the newest log of a job

  function Nullable(s: Option<string>): F.Value {
    if s.Some? then F.Text(s.value) else F.Null
  }

  function RowOf(l: Log): F.Row {
    (column: string) =>
      if column == "job_id" then F.Text(l.job)
      else if column == "operation" then Nullable(l.operation)
      else if column == "status" then Nullable(l.status)
      else if column == "actual_start_date" then if l.start.Some? then F.Num(l.start.value) else F.Null
      else F.Null
  }

  const LOGS := F.Entity({"job_id", "operation", "status", "actual_start_date", "celery_task_name", "log_id"},
    {"isnot"})

  const IS_SET := F.Test("isnot", F.One(F.Null))

  const NOT_OUTDATED := F.Test("ne", F.One(F.Text("OUTDATED")))

  /** The filter parameters of the lookup. */
  function Lookup(job: JobId): seq<F.Filter> {
    [F.Is("job_id", F.One(F.Text(job)))] +
    ([F.Tests("operation", [NOT_OUTDATED])] +
     [F.Nested(true, StatusOrStart())])
  }

  function StatusOrStart(): seq<F.Filter> {
    [F.Tests("status", [IS_SET])] + [F.Tests("actual_start_date", [IS_SET])]
  }

  /** Logs the lookup is after: not outdated, with a status or a start date. A log without an
      operation is left out too, because comparing its null with OUTDATED is unknown. */
  predicate Relevant(l: Log, job: JobId) {
    && l.job == job
    && l.operation.Some? && l.operation.value != "OUTDATED"
    && (l.status.Some? || l.start.Some?)
  }

  lemma TestCompiles(column: string, test: F.Test)
    requires F.TestError(LOGS, column, test) == None
    ensures F.CompileOne(LOGS, F.Tests(column, [test])).Ok?
    ensures F.Compile(LOGS, [F.Tests(column, [test])]).Ok?
  {
    F.CompileSingleTest(LOGS, column, test);
    F.CompileSingle(LOGS, F.Tests(column, [test]));
  }

  lemma LookupCompiles(job: JobId)
    ensures F.Compile(LOGS, Lookup(job)).Ok? && F.Shaped(Lookup(job), false)
  {
    var status, start := F.Tests("status", [IS_SET]), F.Tests("actual_start_date", [IS_SET]);
    TestCompiles("status", IS_SET);
    TestCompiles("actual_start_date", IS_SET);
    F.CompileCons(LOGS, status, [start]);
    F.ShapedCons(status, [start], true);
    F.ShapedCons(start, [], true);
    var either := F.Nested(true, StatusOrStart());
    var operation := F.Tests("operation", [NOT_OUTDATED]);
    var id := F.Is("job_id", F.One(F.Text(job)));
    F.CompileSingle(LOGS, either);
    TestCompiles("operation", NOT_OUTDATED);
    F.CompileCons(LOGS, operation, [either]);
    F.CompileSingleTest(LOGS, "job_id", F.Test("eq", F.One(F.Text(job))));
    F.CompileCons(LOGS, id, [operation] + [either]);
    F.ShapedCons(either, [], false);
    F.ShapedCons(operation, [either], false);
    F.ShapedCons(id, [operation] + [either], false);
  }

  lemma TestSays(db: F.Database, row: F.Row, column: string, test: F.Test)
    ensures F.SaysOne(db, row, F.Tests(column, [test])) == Some(F.Apply(db, test.op, row(column), test.operand))
  {
    F.SingleTestSays(db, row, column, test, false);
  }

  lemma LookupSays(db: F.Database, l: Log, job: JobId)
    ensures F.Says(db, RowOf(l), Lookup(job), false) == Some(F.Yes) <==> Relevant(l, job)
    ensures F.Says(db, RowOf(l), Lookup(job), false) != None
  {
    var row := RowOf(l);
    var status, start := F.Tests("status", [IS_SET]), F.Tests("actual_start_date", [IS_SET]);
    TestSays(db, row, "status", IS_SET);
    TestSays(db, row, "actual_start_date", IS_SET);
    F.SaysCons(db, row, status, [start], true);
    F.SaysCons(db, row, start, [], true);
    var either := F.Nested(true, StatusOrStart());
    assert F.SaysOne(db, row, either) == Some(F.FromBool(l.status.Some? || l.start.Some?));
    var operation := F.Tests("operation", [NOT_OUTDATED]);
    TestSays(db, row, "operation", NOT_OUTDATED);
    var id := F.Is("job_id", F.One(F.Text(job)));
    F.SaysCons(db, row, either, [], false);
    F.SaysCons(db, row, operation, [either], false);
    F.SaysCons(db, row, id, [operation] + [either], false);
  }

  /** The compiled lookup selects exactly the relevant logs. */
  lemma LookupMeaning(db: F.Database, l: Log, job: JobId)
    ensures F.Compile(LOGS, Lookup(job)).Ok?
    ensures F.Selects(db, RowOf(l), F.Compile(LOGS, Lookup(job)).value) <==> Relevant(l, job)
  {
    LookupCompiles(job);
    F.ShapedMeaning(LOGS, db, RowOf(l), Lookup(job), false);
    LookupSays(db, l, job);
  }

  /** ORDER BY log_id DESC, first row: the newest relevant log with an id below `n`. */
  function Newest(logs: map<nat, Log>, job: JobId, n: nat): Option<nat> {
    if n == 0 then None
    else if n - 1 in logs && Relevant(logs[n - 1], job) then Some(n - 1)
    else Newest(logs, job, n - 1)
  }

  ghost predicate IsNewest(logs: map<nat, Log>, job: JobId, found: Option<nat>) {
    && (found.Some? ==> found.value in logs && Relevant(logs[found.value], job))
    && forall id :: id in logs && Relevant(logs[id], job) ==> found.Some? && id <= found.value
  }

  lemma {:induction false} NewestIs(logs: map<nat, Log>, job: JobId, n: nat)
    ensures var found := Newest(logs, job, n);
      && (found.Some? ==> found.value < n && found.value in logs && Relevant(logs[found.value], job))
      && forall id :: id in logs && id < n && Relevant(logs[id], job) ==> found.Some? && id <= found.value
  {
    if n > 0 {
      NewestIs(logs, job, n - 1);
    }
  }

  // ---------------------------------------------------------------- the index

  function RowsOf(lasts: seq<LastLog>, job: JobId): seq<LastLog>
    decreases |lasts|
  {
    if lasts == [] then []
    else RowsOf(lasts[..|lasts| - 1], job) + if lasts[|lasts| - 1].job == job then [lasts[|lasts| - 1]] else []
  }

  ghost predicate OneEach(lasts: seq<LastLog>) {
    forall i, k :: 0 <= i < k < |lasts| ==> lasts[i].job != lasts[k].job
  }

  /** There is exactly one index row for the job, and it points to its newest relevant log, or
      to nothing when there is none. */
  ghost predicate Indexed(logs: map<nat, Log>, lasts: seq<LastLog>, job: JobId) {
    |RowsOf(lasts, job)| == 1 && IsNewest(logs, job, RowsOf(lasts, job)[0].log)
  }

  ghost predicate HasRow(lasts: seq<LastLog>, job: JobId) {
    exists i :: 0 <= i < |lasts| && lasts[i].job == job
  }

  lemma {:induction false} OneRow(lasts: seq<LastLog>, job: JobId, i: nat)
    requires OneEach(lasts) && i < |lasts| && lasts[i].job == job
    ensures RowsOf(lasts, job) == [lasts[i]]
    decreases |lasts|
  {
    var n := |lasts| - 1;
    if i < n {
      OneRow(lasts[..n], job, i);
    } else {
      NoRow(lasts[..n], job);
    }
  }

  lemma {:induction false} NoRow(lasts: seq<LastLog>, job: JobId)
    requires forall i :: 0 <= i < |lasts| ==> lasts[i].job != job
    ensures RowsOf(lasts, job) == []
    decreases |lasts|
  {
    if lasts != [] {
      NoRow(lasts[..|lasts| - 1], job);
    }
  }

  lemma {:induction false} OtherRows(lasts: seq<LastLog>, i: nat, row: LastLog, job: JobId)
    requires i < |lasts| && row.job == lasts[i].job != job
    ensures RowsOf(lasts[i := row], job) == RowsOf(lasts, job)
    decreases |lasts|
  {
    var n := |lasts| - 1;
    if i < n {
      assert lasts[i := row][..n] == lasts[..n][i := row];
      OtherRows(lasts[..n], i, row, job);
    } else {
      assert lasts[i := row][..n] == lasts[..n];
    }
  }

  // ---------------------------------------------------------------- updates

  /** The fields an update sets; an absent one is left as it is. */
  datatype Change = Change(operation: Option<Option<string>>, status: Option<Option<string>>,
    start: Option<Option<int>>)

  function Apply(l: Log, c: Change): Log {
    Log(
      l.task, l.job,
      if c.operation.Some? then c.operation.value else l.operation,
      if c.status.Some? then c.status.value else l.status,
      if c.start.Some? then c.start.value else l.start)
  }

  function Changed(logs: map<nat, Log>, ids: set<nat>, c: Change): map<nat, Log> {
    map id | id in logs :: if id in ids then Apply(logs[id], c) else logs[id]
  }

  datatype Key = ByTask(task: string) | ById(id: nat)

  function Selected(logs: map<nat, Log>, key: Key): set<nat> {
    match key
    case ByTask(task) => set id | id in logs && logs[id].task == Some(task)
    case ById(id) => if id in logs then {id} else {}
  }

  /** The update is for this log: it has the task name, or the id. */
  predicate Meant(key: Key, id: nat, l: Log) {
    if key.ByTask? then l.task == Some(key.task) else id == key.id
  }

  /** A column the update gives has the given value; the others, and the task and job, are kept. */
  predicate Updated(l: Log, l': Log, c: Change) {
    && l'.task == l.task && l'.job == l.job
    && (if c.operation.Some? then Some(l'.operation) == c.operation else l'.operation == l.operation)
    && (if c.status.Some? then Some(l'.status) == c.status else l'.status == l.status)
    && (if c.start.Some? then Some(l'.start) == c.start else l'.start == l.start)
  }

  datatype Error = NoSuchJob | NoTasks | NoSuchRecord

  function Appended(logs: map<nat, Log>, next: nat, drafts: seq<Log>): map<nat, Log>
    decreases |drafts|
  {
    if drafts == [] then logs
    else Appended(logs, next, drafts[..|drafts| - 1])[next + |drafts| - 1 := drafts[|drafts| - 1]]
  }

  lemma {:induction false} AppendedAre(logs: map<nat, Log>, next: nat, drafts: seq<Log>)
    ensures forall id :: id in Appended(logs, next, drafts) <==> id in logs || next <= id < next + |drafts|
    ensures forall id :: id in logs && id < next ==> Appended(logs, next, drafts)[id] == logs[id]
    ensures forall id :: next <= id < next + |drafts| ==> Appended(logs, next, drafts)[id] == drafts[id - next]
    decreases |drafts|
  {
    if drafts != [] {
      AppendedAre(logs, next, drafts[..|drafts| - 1]);
    }
  }

  /** The index row of a job after a refresh, from the rows it had. A start date of 0 counts
      as none when there is a row already. */
  function RefreshedRow(rows: seq<LastLog>, job: JobId, newest: Option<nat>, start: Option<int>,
      state: Option<string>): LastLog
  {
    if rows == [] then LastLog(job, newest, start, if state.Some? then state else Some("SCHEDULED"))
    else LastLog(
      job, newest, if start.Some? && start.value != 0 then start else rows[0].start,
      if state.Some? then state else rows[0].state)
  }

  /** A given state is stored; a job without a row and a state gets SCHEDULED. A start date is
      stored as given for a new row, and only if it is not 0 for an old one. */
  predicate RowFor(row: LastLog, before: seq<LastLog>, job: JobId, start: Option<int>, state: Option<string>) {
    && row.job == job
    && (state.Some? ==> row.state == state)
    && (state.None? ==> row.state == if before == [] then Some("SCHEDULED") else before[0].state)
    && (before == [] || (start.Some? && start.value != 0) ==> row.start == start)
    && (before != [] && (start.None? || start == Some(0)) ==> row.start == before[0].start)
  }

  class Store {
    const jobs: set<JobId>
    var logs: map<nat, Log>
    var next: nat
    var lasts: seq<LastLog>

    ghost predicate Valid()
      reads this
    {
      (forall id :: id in logs ==> id < next) && OneEach(lasts)
    }

    /** The index row of a job. */
    method Find(job: JobId) returns (at: Option<nat>)
      requires Valid()
      ensures at.Some? ==> at.value < |lasts| && lasts[at.value].job == job
      ensures at == None ==> !HasRow(lasts, job)
    {
      for k := 0 to |lasts|
        invariant forall i :: 0 <= i < k ==> lasts[i].job != job
      {
        if lasts[k].job == job {
          return Some(k);
        }
      }
      at := None;
    }

    method SetRow(i: nat, row: LastLog)
      requires Valid() && i < |lasts| && lasts[i].job == row.job
      modifies this`lasts
      ensures Valid() && RowsOf(lasts, row.job) == [row]
      ensures forall k :: k != row.job ==> RowsOf(lasts, k) == RowsOf(old(lasts), k)
    {
      forall k | k != row.job ensures RowsOf(lasts[i := row], k) == RowsOf(lasts, k) {
        OtherRows(lasts, i, row, k);
      }
      lasts := lasts[i := row];
      OneRow(lasts, row.job, i);
    }

    method AddRow(row: LastLog)
      requires Valid() && !HasRow(lasts, row.job)
      modifies this`lasts
      ensures Valid() && RowsOf(lasts, row.job) == [row]
      ensures forall k :: k != row.job ==> RowsOf(lasts, k) == RowsOf(old(lasts), k)
    {
      NoRow(lasts, row.job);
      lasts := lasts + [row];
      assert lasts[..|lasts| - 1] == old(lasts);
      assert forall k :: RowsOf(lasts, k) == RowsOf(old(lasts), k) + if k == row.job then [row] else [];
    }

    /** __process_last_log, then the state __update_job_data stores in the same row, if any. */
    method Refresh(job: JobId, start: Option<int>, state: Option<string>)
      requires Valid()
      modifies this`lasts
      ensures Valid() && IsNewest(logs, job, Newest(logs, job, next))
      ensures |RowsOf(lasts, job)| == 1 && RowFor(RowsOf(lasts, job)[0], RowsOf(old(lasts), job), job, start, state)
      ensures RowsOf(lasts, job) == [RefreshedRow(RowsOf(old(lasts), job), job, Newest(logs, job, next), start, state)]
      ensures forall k :: k != job ==> RowsOf(lasts, k) == RowsOf(old(lasts), k)
    {
      var newest := Newest(logs, job, next);
      NewestIs(logs, job, next);
      var at := Find(job);
      if at == None {
        NoRow(lasts, job);
        assert RowsOf(lasts, job) == [];
        AddRow(LastLog(job, newest, start, Some("SCHEDULED")));
      } else {
        OneRow(lasts, job, at.value);
        var row := lasts[at.value];
        SetRow(at.value, row.(log := newest, start := if start.Some? && start.value != 0 then start else row.start));
      }
      if state.Some? {
        var i := Find(job);
        if i == None {
          NoRow(lasts, job);
          assert false;
        }
        OneRow(lasts, job, i.value);
        SetRow(i.value, lasts[i.value].(state := state));
      }
    }

    /** scheduler_job_run_logs_create with a single log or, with `multiple`, a list of tasks. */
    method CreateLogs(job: JobId, drafts: seq<Log>, multiple: bool, start: Option<int>, state: Option<string>)
      returns (r: Result<(), Error>)
      requires Valid() && (!multiple ==> |drafts| == 1)
      modifies this
      ensures Valid()
      ensures r == if job !in jobs then Err(NoSuchJob) else if drafts == [] then Err(NoTasks) else Ok(())
      ensures r.Err? ==> logs == old(logs) && lasts == old(lasts)
      ensures r.Ok? ==>
        && logs == Appended(old(logs), old(next), seq(|drafts|, i requires 0 <= i < |drafts| => drafts[i].(job := job)))
        && (forall id :: id in logs <==> id in old(logs) || old(next) <= id < old(next) + |drafts|)
        && (forall id :: id in old(logs) ==> logs[id] == old(logs)[id])
        && (forall i :: 0 <= i < |drafts| ==> logs[old(next) + i] == drafts[i].(job := job))
        && Indexed(logs, lasts, job)
        && forall k :: k != job && Indexed(old(logs), old(lasts), k) ==> Indexed(logs, lasts, k)
    {
      if job !in jobs {
        return Err(NoSuchJob);
      }
      if drafts == [] {
        return Err(NoTasks);
      }
      var rows := seq(|drafts|, i requires 0 <= i < |drafts| => drafts[i].(job := job));
      AppendedAre(logs, next, rows);
      logs, next := Appended(logs, next, rows), next + |rows|;
      Refresh(job, start, state);
      forall k | k != job && Indexed(old(logs), old(lasts), k) ensures Indexed(logs, lasts, k) {
        AppendKeepsNewest(old(logs), old(next), rows, job, k, RowsOf(lasts, k)[0].log);
      }
      r := Ok(());
    }

    /** scheduler_job_run_logs_update. The logs are chosen by task name or id, whichever job
        they belong to; only the index row of `job` is refreshed. An error undoes the update. */
    method UpdateLogs(job: JobId, key: Key, c: Change, start: Option<int>, state: Option<string>)
      returns (r: Result<(), Error>)
      requires Valid()
      modifies this
      ensures Valid() && next == old(next)
      ensures r ==
        if Selected(old(logs), key) == {} then Err(NoSuchRecord) else if job !in jobs then Err(NoSuchJob) else Ok(())
      ensures r.Err? ==> logs == old(logs) && lasts == old(lasts)
      ensures r.Ok? ==> logs.Keys == old(logs).Keys && forall id :: id in logs ==>
        if Meant(key, id, old(logs)[id]) then Updated(old(logs)[id], logs[id], c) else logs[id] == old(logs)[id]
      ensures r == Err(NoSuchRecord) <==> forall id :: id in old(logs) ==> !Meant(key, id, old(logs)[id])
      ensures r.Ok? ==>
        && logs == Changed(old(logs), Selected(old(logs), key), c)
        && Indexed(logs, lasts, job)
        && forall k :: k != job ==> RowsOf(lasts, k) == RowsOf(old(lasts), k)
    {
      var ids := Selected(logs, key);
      assert forall id :: id in logs ==> (id in ids <==> Meant(key, id, logs[id]));
      if ids == {} {
        return Err(NoSuchRecord);
      }
      var before := logs;
      logs := Changed(logs, ids, c);
      if job !in jobs {
        logs := before;
        return Err(NoSuchJob);
      }
      Refresh(job, start, state);
      r := Ok(());
    }
  }

  lemma AppendKeepsNewest(logs: map<nat, Log>, next: nat, rows: seq<Log>, job: JobId, k: JobId, found: Option<nat>)
    requires forall id :: id in logs ==> id < next
    requires forall i :: 0 <= i < |rows| ==> rows[i].job == job
    requires k != job && IsNewest(logs, k, found)
    ensures IsNewest(Appended(logs, next, rows), k, found)
  {
    AppendedAre(logs, next, rows);
  }

  // ---------------------------------------------------------------- the rows of other jobs

  /** The selected logs of other jobs are older than the newest ones of their jobs. */
  ghost predicate OlderThanNewest(logs: map<nat, Log>, lasts: seq<LastLog>, ids: set<nat>, job: JobId) {
    forall id :: id in ids && id in logs && logs[id].job != job && HasRow(lasts, logs[id].job) ==>
      RowsOf(lasts, logs[id].job) != [] &&
      RowsOf(lasts, logs[id].job)[0].log.Some? && id < RowsOf(lasts, logs[id].job)[0].log.value
  }

  ghost predicate OthersIndexed(logs: map<nat, Log>, lasts: seq<LastLog>, job: JobId) {
    forall k :: k != job && HasRow(lasts, k) ==> Indexed(logs, lasts, k)
  }

  lemma OlderIsHarmless(logs: map<nat, Log>, lasts: seq<LastLog>, ids: set<nat>, job: JobId, c: Change)
    requires OthersIndexed(logs, lasts, job) && OlderThanNewest(logs, lasts, ids, job)
    ensures OthersIndexed(Changed(logs, ids, c), lasts, job)
  {
    var logs' := Changed(logs, ids, c);
    forall k | k != job && HasRow(lasts, k) ensures Indexed(logs', lasts, k) {
      var found := RowsOf(lasts, k)[0].log;
      assert IsNewest(logs, k, found);
      forall id | id in logs' && Relevant(logs'[id], k) ensures found.Some? && id <= found.value {
        assert logs[id].job == k;
      }
    }
  }

  /** A change under which the job of log `id` has another newest log. */
  function Upset(newest: Option<nat>, id: nat): Change {
    if newest == Some(id) then Change(Some(Some("OUTDATED")), None, None)
    else Change(Some(Some("RUN")), Some(Some("SUCCESS")), None)
  }

  lemma NewerIsHarmful(logs: map<nat, Log>, lasts: seq<LastLog>, ids: set<nat>, job: JobId, id: nat)
    requires OthersIndexed(logs, lasts, job)
    requires id in ids && id in logs && logs[id].job != job && HasRow(lasts, logs[id].job)
    requires RowsOf(lasts, logs[id].job)[0].log.Some? ==> id >= RowsOf(lasts, logs[id].job)[0].log.value
    ensures !Indexed(Changed(logs, ids, Upset(RowsOf(lasts, logs[id].job)[0].log, id)), lasts, logs[id].job)
  {
    var k := logs[id].job;
    var newest := RowsOf(lasts, k)[0].log;
    var logs' := Changed(logs, ids, Upset(newest, id));
    if newest == Some(id) {
      assert !Relevant(logs'[id], k);
    } else {
      assert Relevant(logs'[id], k);
    }
  }

  /** An update leaves the index right for the other jobs, whatever it sets, exactly if the
      logs it selects from them are older than the ones their index rows point to. */
  lemma UpdateExactly(logs: map<nat, Log>, lasts: seq<LastLog>, ids: set<nat>, job: JobId)
    requires OthersIndexed(logs, lasts, job)
    ensures OlderThanNewest(logs, lasts, ids, job) <==> forall c :: OthersIndexed(Changed(logs, ids, c), lasts, job)
  {
    if OlderThanNewest(logs, lasts, ids, job) {
      forall c ensures OthersIndexed(Changed(logs, ids, c), lasts, job) {
        OlderIsHarmless(logs, lasts, ids, job, c);
      }
    } else {
      var id :| id in ids && id in logs && logs[id].job != job && HasRow(lasts, logs[id].job) && !(
        RowsOf(lasts, logs[id].job) != [] &&
        RowsOf(lasts, logs[id].job)[0].log.Some? && id < RowsOf(lasts, logs[id].job)[0].log.value);
      assert Indexed(logs, lasts, logs[id].job);
      NewerIsHarmful(logs, lasts, ids, job, id);
    }
  }
}
