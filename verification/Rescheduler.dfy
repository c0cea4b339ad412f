/** The beat-side TaskScheduler: any number of instances read a stale list of targets
    without an enabled entry, then take a per-target lock, look at the newest entry and
    create the next one, while beat fires entries and other services delete them.
    An execution is a list of steps; every interleaving is one such list. */
module Rescheduler {
  import opened Wrappers

  /** The id of a job or a workflow; it is stored in the `description` of its entries. */
  type Target = string
  type Instance = nat

  /** Entry names and task paths are strings of four disjoint shapes: a dotted function path, a
      job id with a UTC second, a job id with a written-out date (the form the other services
      use), and a random id. */
  datatype Label =
    | Path(path: string)
    | Stamped(target: Target, second: int)
    | Dated(target: Target, date: string)
    | Random(id: string)

  datatype Entry = Entry(name: Label, task: Label, clocked: int, enabled: bool)

  /** Times are in milliseconds. `after` is the recurrence rule of a target, evaluated with
      the given instant included. */
  datatype Config = Config(
    cooldownSeconds: nat,
    isJob: Target -> bool,
    functionName: Target -> string,
    after: (Target, int) -> Option<int>)

  ghost predicate ValidConfig(c: Config) {
    forall t, now :: c.after(t, now).Some? ==> now <= c.after(t, now).value
  }

  function Cooldown(c: Config): nat {
    1000 * c.cooldownSeconds
  }

  /** The rest of one `for` loop over targets: the clock read before it, the targets left,
      and the batches (jobs, then workflows) that come after it. */
  datatype Loop = Loop(now: int, todo: seq<Target>, later: seq<seq<Target>>)

  datatype Phase =
    | Between(batches: seq<seq<Target>>)
    | Scanning(loop: Loop)
    | Entering(target: Target, loop: Loop)
    | Holding(target: Target, loop: Loop)
    | Deciding(target: Target, loop: Loop, next: Option<int>)
    | Leaving(target: Target, loop: Loop)

  datatype State = State(
    table: map<Target, seq<Entry>>,
    locks: map<Target, Instance>,
    phases: map<Instance, Phase>)

  /** The entries of a target in id order. */
  function EntriesOf(table: map<Target, seq<Entry>>, t: Target): seq<Entry> {
    if t in table then table[t] else []
  }

  function PhaseOf(s: State, i: Instance): Phase {
    if i in s.phases then s.phases[i] else Between([])
  }

  predicate HasEnabled(es: seq<Entry>) {
    exists k :: 0 <= k < |es| && es[k].enabled
  }

  /** The newest entry is enabled, or its time is not yet a cooldown in the past. */
  predicate Fresh(c: Config, es: seq<Entry>, now: int) {
    es != [] && (es[|es| - 1].enabled || now - es[|es| - 1].clocked <= Cooldown(c))
  }

  // ---------------------------------------------------------------- creating an entry

  function Matches(table: map<Target, seq<Entry>>, task: Label): set<(Target, nat)> {
    set t, k: nat | t in table && k < |table[t]| && table[t][k].task == task :: (t, k)
  }

  predicate NameTaken(table: map<Target, seq<Entry>>, name: Label) {
    exists t, k: nat :: t in table && k < |table[t]| && table[t][k].name == name
  }

  function Append(table: map<Target, seq<Entry>>, t: Target, e: Entry): map<Target, seq<Entry>> {
    table[t := EntriesOf(table, t) + [e]]
  }

  /** The transaction under the lock. A job's entry is first looked up by the `task` column:
      one hit is re-clocked, several hits raise; otherwise an entry is created, and creating
      a second entry of the same name raises too. A raised error rolls everything back. */
  function Create(c: Config, table: map<Target, seq<Entry>>, t: Target, next: int, random: string)
    : map<Target, seq<Entry>>
  {
    if c.isJob(t) then
      var name := Stamped(t, next / 1000);
      var hits := Matches(table, name);
      if |hits| == 1 then
        map u | u in table :: seq(|table[u]|, k requires 0 <= k < |table[u]| =>
          if (u, k) in hits then table[u][k].(clocked := next) else table[u][k])
      else if |hits| > 1 || NameTaken(table, name) then
        table
      else
        Append(table, t, Entry(name, Path(c.functionName(t)), next, true))
    else
      Append(table, t, Entry(Random(random), Path("celerytasks.tasks.run_workflow"), next, true))
  }

  /** The lookup's branches, were it ever to find anything: the one entry whose task column holds the
      name is given the new time and all else stays, and with several nothing changes. */
  lemma CreateFound(c: Config, table: map<Target, seq<Entry>>, t: Target, next: int, random: string)
    requires c.isJob(t)
    ensures var found :=
        set u, k: nat | u in table && k < |table[u]| && table[u][k].task == Stamped(t, next / 1000) :: (u, k);
      var table': map<Target, seq<Entry>> := Create(c, table, t, next, random);
      && (|found| > 1 ==> table' == table)
      && (|found| == 1 ==>
        table'.Keys == table.Keys && forall u :: u in table ==>
          |table'[u]| == |table[u]| && forall k :: 0 <= k < |table[u]| ==>
            table'[u][k] == if (u, k) in found then table[u][k].(clocked := next) else table[u][k])
  {
    assert Matches(table, Stamped(t, next / 1000)) ==
      set u, k: nat | u in table && k < |table[u]| && table[u][k].task == Stamped(t, next / 1000) :: (u, k);
  }

  // ---------------------------------------------------------------- steps

  datatype Step =
    | Snapshot(i: Instance, batches: seq<seq<Target>>)  // one pass of start(): the stale lists
    | Begin(i: Instance, now: int)                      // read this instance's clock, enter a loop
    | Finish(i: Instance)                               // a loop is exhausted
    | Try(i: Instance)                                  // RedisLock.__enter__: is it held?
    | Acquire(i: Instance)                              // then the blocking acquire
    | Inspect(i: Instance)                              // read the newest entry
    | Commit(i: Instance, random: string)               // create the entry, commit
    | Release(i: Instance)
    | Die(i: Instance)                                  // the process stops; its lock expires
    | Fire(t: Target, k: nat)                           // beat sends a one-off entry and disables it
    | Remove(t: Target, k: nat)                         // another service deletes an entry

  predicate Enabled(s: State, step: Step) {
    match step
    case Snapshot(i, batches) =>
      && PhaseOf(s, i) == Between([])
      && forall b :: b in batches ==> forall t :: t in b ==> !HasEnabled(EntriesOf(s.table, t))
    case Begin(i, now) => PhaseOf(s, i).Between? && PhaseOf(s, i).batches != []
    case Finish(i) => PhaseOf(s, i).Scanning? && PhaseOf(s, i).loop.todo == []
    case Try(i) => PhaseOf(s, i).Scanning? && PhaseOf(s, i).loop.todo != []
    case Acquire(i) => PhaseOf(s, i).Entering? && PhaseOf(s, i).target !in s.locks
    case Inspect(i) => PhaseOf(s, i).Holding?
    case Commit(i, random) => PhaseOf(s, i).Deciding? && !NameTaken(s.table, Random(random))
    case Release(i) => PhaseOf(s, i).Leaving?
    case Die(i) => true
    case Fire(t, k) => k < |EntriesOf(s.table, t)| && s.table[t][k].enabled
    case Remove(t, k) => k < |EntriesOf(s.table, t)|
  }

  function SetPhase(s: State, i: Instance, p: Phase): State {
    s.(phases := s.phases[i := p])
  }

  function Apply(c: Config, s: State, step: Step): State
    requires Enabled(s, step)
  {
    match step
    case Snapshot(i, batches) => SetPhase(s, i, Between(batches))
    case Begin(i, now) =>
      var batches := PhaseOf(s, i).batches;
      SetPhase(s, i, Scanning(Loop(now, batches[0], batches[1..])))
    case Finish(i) => SetPhase(s, i, Between(PhaseOf(s, i).loop.later))
    case Try(i) =>
      var loop := PhaseOf(s, i).loop;
      var rest := loop.(todo := loop.todo[1..]);
      SetPhase(s, i, if loop.todo[0] in s.locks then Scanning(rest) else Entering(loop.todo[0], rest))
    case Acquire(i) =>
      var p := PhaseOf(s, i);
      SetPhase(s, i, Holding(p.target, p.loop)).(locks := s.locks[p.target := i])
    case Inspect(i) =>
      var p := PhaseOf(s, i);
      SetPhase(s, i,
        if Fresh(c, EntriesOf(s.table, p.target), p.loop.now) then Leaving(p.target, p.loop)
        else Deciding(p.target, p.loop, c.after(p.target, p.loop.now)))
    case Commit(i, random) =>
      var p := PhaseOf(s, i);
      SetPhase(s, i, Leaving(p.target, p.loop)).(table :=
        match p.next
        case None => s.table
        case Some(next) => Create(c, s.table, p.target, next, random))
    case Release(i) =>
      var p := PhaseOf(s, i);
      SetPhase(s, i, Scanning(p.loop)).(locks := s.locks - {p.target})
    case Die(i) =>
      SetPhase(s, i, Between([])).(locks := map t | t in s.locks && s.locks[t] != i :: s.locks[t])
    case Fire(t, k) => s.(table := s.table[t := s.table[t][k := s.table[t][k].(enabled := false)]])
    case Remove(t, k) => s.(table := s.table[t := s.table[t][..k] + s.table[t][k + 1..]])
  }

  /** The state a list of steps leads to, if each is enabled where it is taken. */
  function Execute(c: Config, s: State, steps: seq<Step>): Option<State>
    decreases |steps|
  {
    if steps == [] then Some(s)
    else if Enabled(s, steps[0]) then Execute(c, Apply(c, s, steps[0]), steps[1..])
    else None
  }

  /** No instance has started; the table may hold entries made by other services. */
  function Start(table: map<Target, seq<Entry>>): State {
    State(table, map[], map[])
  }

  ghost predicate ReachableFrom(c: Config, table: map<Target, seq<Entry>>, s: State) {
    exists steps :: Execute(c, Start(table), steps) == Some(s)
  }

  /** Reachable from a table whose entries are spaced and properly named, such as one with the
      first entry of each job. */
  ghost predicate Reachable(c: Config, s: State) {
    exists table :: TableGood(c, table) && ReachableFrom(c, table, s)
  }

  // ---------------------------------------------------------------- the invariant

  predicate InCritical(p: Phase, t: Target) {
    (p.Holding? || p.Deciding? || p.Leaving?) && p.target == t
  }

  /** A lock is held exactly by the instance inside the critical section of its target. */
  ghost predicate LocksMatch(s: State) {
    forall i, t :: InCritical(PhaseOf(s, i), t) <==> t in s.locks && s.locks[t] == i
  }

  /** In id order, clocked times grow by more than the cooldown, and all but the last are disabled. */
  ghost predicate Spaced(c: Config, es: seq<Entry>) {
    forall k, l :: 0 <= k < l < |es| ==> es[k].clocked + Cooldown(c) < es[l].clocked && !es[k].enabled
  }

  /** The task column holds function paths, and a stamped name is that of the job and its
      clocked second. */
  ghost predicate Named(t: Target, es: seq<Entry>) {
    forall k :: 0 <= k < |es| ==> NamedEntry(t, es[k])
  }

  predicate NamedEntry(t: Target, e: Entry) {
    e.task.Path? && (e.name.Stamped? ==> e.name == Stamped(t, e.clocked / 1000))
  }

  ghost predicate TableGood(c: Config, table: map<Target, seq<Entry>>) {
    forall t :: t in table ==> Spaced(c, table[t]) && Named(t, table[t])
  }

  /** Every entry is disabled and more than a cooldown older than `now`. */
  ghost predicate AllStale(c: Config, es: seq<Entry>, now: int) {
    forall k :: 0 <= k < |es| ==> !es[k].enabled && es[k].clocked + Cooldown(c) < now
  }

  /** What an instance about to create an entry knows stays true until it creates it. */
  ghost predicate DecisionsHold(c: Config, s: State) {
    forall i :: var p := PhaseOf(s, i);
      p.Deciding? ==>
        && AllStale(c, EntriesOf(s.table, p.target), p.loop.now)
        && p.next == c.after(p.target, p.loop.now)
  }

  ghost predicate Inv(c: Config, s: State) {
    LocksMatch(s) && TableGood(c, s.table) && DecisionsHold(c, s)
  }

  // ---------------------------------------------------------------- preservation

  lemma NoTaskMatches(c: Config, table: map<Target, seq<Entry>>, t: Target, second: int)
    requires TableGood(c, table)
    ensures Matches(table, Stamped(t, second)) == {}
  {
    forall u, k: nat | u in table && k < |table[u]|
      ensures table[u][k].task != Stamped(t, second)
    {
      assert Named(u, table[u]);
    }
  }

  /** The unique-name error is never raised: an older entry is at least a second older. */
  lemma NameIsFree(c: Config, table: map<Target, seq<Entry>>, t: Target, next: int)
    requires TableGood(c, table) && c.isJob(t) && 1 <= c.cooldownSeconds
    requires AllStale(c, EntriesOf(table, t), next)
    ensures !NameTaken(table, Stamped(t, next / 1000))
  {
    forall u, k: nat | u in table && k < |table[u]|
      ensures table[u][k].name != Stamped(t, next / 1000)
    {
      assert Named(u, table[u]);
      if u == t {
        assert EntriesOf(table, t)[k].clocked + 1000 <= next;
      }
    }
  }

  /** A newer entry after stale ones. */
  lemma SpacedNext(c: Config, t: Target, es: seq<Entry>, e: Entry)
    requires Spaced(c, es) && Named(t, es) && AllStale(c, es, e.clocked)
    requires Named(t, [e])
    ensures Spaced(c, es + [e]) && Named(t, es + [e])
  {
    var es' := es + [e];
    forall k, l | 0 <= k < l < |es'|
      ensures es'[k].clocked + Cooldown(c) < es'[l].clocked && !es'[k].enabled
    {
      assert es'[k] == es[k];
      if l < |es| {
        assert es'[l] == es[l];
      }
    }
    assert [e][0] == e;
    forall k | 0 <= k < |es'| ensures NamedEntry(t, es'[k]) {
      if k < |es| {
        assert es'[k] == es[k];
      }
    }
  }

  lemma CreateKeepsTable(c: Config, table: map<Target, seq<Entry>>, t: Target, now: int, random: string)
    requires ValidConfig(c) && TableGood(c, table) && AllStale(c, EntriesOf(table, t), now)
    requires c.after(t, now).Some?
    ensures var table' := Create(c, table, t, c.after(t, now).value, random);
      && TableGood(c, table')
      && forall u :: u != t ==> EntriesOf(table', u) == EntriesOf(table, u)
  {
    var next := c.after(t, now).value;
    NoTaskMatches(c, table, t, next / 1000);
    var table' := Create(c, table, t, next, random);
    var es := EntriesOf(table, t);
    if table' != table {
      var e := table'[t][|es|];
      assert table'[t] == es + [e];
      assert t in table ==> Spaced(c, es) && Named(t, es);
      assert AllStale(c, es, e.clocked);
      SpacedNext(c, t, es, e);
    }
  }

  lemma InspectKeeps(c: Config, s: State, i: Instance)
    requires ValidConfig(c) && Inv(c, s) && Enabled(s, Inspect(i))
    ensures Inv(c, Apply(c, s, Inspect(i)))
  {
    var p := PhaseOf(s, i);
    var es := EntriesOf(s.table, p.target);
    var s' := Apply(c, s, Inspect(i));
    forall j ensures PhaseOf(s', j) == if j == i then s'.phases[i] else PhaseOf(s, j) {}
    if !Fresh(c, es, p.loop.now) {
      assert AllStale(c, es, p.loop.now) by {
        if es != [] {
          assert Spaced(c, es);
        }
      }
    }
    forall j, t ensures InCritical(PhaseOf(s', j), t) <==> InCritical(PhaseOf(s, j), t) {}
  }

  lemma CommitKeeps(c: Config, s: State, i: Instance, random: string)
    requires ValidConfig(c) && Inv(c, s) && Enabled(s, Commit(i, random))
    ensures Inv(c, Apply(c, s, Commit(i, random)))
  {
    var p := PhaseOf(s, i);
    var s' := Apply(c, s, Commit(i, random));
    if p.next.Some? {
      CreateKeepsTable(c, s.table, p.target, p.loop.now, random);
    }
    forall j ensures PhaseOf(s', j) == if j == i then s'.phases[i] else PhaseOf(s, j) {}
    forall j, t ensures InCritical(PhaseOf(s', j), t) <==> InCritical(PhaseOf(s, j), t) {}
    forall j | PhaseOf(s', j).Deciding?
      ensures AllStale(c, EntriesOf(s'.table, PhaseOf(s', j).target), PhaseOf(s', j).loop.now)
    {
      var q := PhaseOf(s, j);
      assert PhaseOf(s', i).Leaving? && j != i && PhaseOf(s', j) == q;
      assert InCritical(p, p.target) && InCritical(q, q.target);
      assert s.locks[p.target] == i && s.locks[q.target] == j;
      assert q.target != p.target && AllStale(c, EntriesOf(s.table, q.target), q.loop.now);
      assert EntriesOf(s'.table, q.target) == EntriesOf(s.table, q.target);
    }
  }

  /** Every entry of `es'` is one of `es`, possibly disabled. */
  ghost predicate Weaker(es': seq<Entry>, es: seq<Entry>) {
    forall k :: 0 <= k < |es'| ==> es'[k] in es || es'[k].(enabled := true) in es
  }

  /** Firing and deleting only shrink what is enabled. */
  lemma ShrinkKeeps(c: Config, s: State, s': State, t: Target)
    requires Inv(c, s) && s'.locks == s.locks && s'.phases == s.phases
    requires t in s.table && s'.table.Keys == s.table.Keys
    requires forall u :: u in s.table && u != t ==> s'.table[u] == s.table[u]
    requires Spaced(c, s'.table[t]) && Named(t, s'.table[t])
    requires Weaker(s'.table[t], s.table[t])
    ensures Inv(c, s')
  {
    forall i ensures PhaseOf(s', i) == PhaseOf(s, i) {}
    forall i, u ensures InCritical(PhaseOf(s', i), u) <==> InCritical(PhaseOf(s, i), u) {}
    forall i | PhaseOf(s', i).Deciding?
      ensures AllStale(c, EntriesOf(s'.table, PhaseOf(s', i).target), PhaseOf(s', i).loop.now)
    {
      var u := PhaseOf(s, i).target;
      assert AllStale(c, EntriesOf(s.table, u), PhaseOf(s, i).loop.now);
      if u == t {
        forall k | 0 <= k < |s'.table[t]|
          ensures !s'.table[t][k].enabled && s'.table[t][k].clocked + Cooldown(c) < PhaseOf(s, i).loop.now
        {
          var e := s'.table[t][k];
          var d := if e in s.table[t] then e else e.(enabled := true);
          assert d in s.table[t];
        }
      }
    }
  }

  lemma FireKeeps(c: Config, s: State, t: Target, k: nat)
    requires Inv(c, s) && Enabled(s, Fire(t, k))
    ensures Inv(c, Apply(c, s, Fire(t, k)))
  {
    assert Spaced(c, s.table[t]) && Named(t, s.table[t]);
    var s' := Apply(c, s, Fire(t, k));
    assert s.table[t][k] in s.table[t];
    ShrinkKeeps(c, s, s', t);
  }

  lemma RemoveSpaced(c: Config, t: Target, es: seq<Entry>, k: nat)
    requires k < |es| && Spaced(c, es) && Named(t, es)
    ensures var es' := es[..k] + es[k + 1..];
      Spaced(c, es') && Named(t, es') && Weaker(es', es)
  {
    var es' := es[..k] + es[k + 1..];
    forall l | 0 <= l < |es'| ensures es'[l] == es[if l < k then l else l + 1] {}
    forall i, j | 0 <= i < j < |es'|
      ensures es'[i].clocked + Cooldown(c) < es'[j].clocked && !es'[i].enabled
    {
      assert es'[i] == es[if i < k then i else i + 1] && es'[j] == es[if j < k then j else j + 1];
    }
  }

  lemma RemoveKeeps(c: Config, s: State, t: Target, k: nat)
    requires Inv(c, s) && Enabled(s, Remove(t, k))
    ensures Inv(c, Apply(c, s, Remove(t, k)))
  {
    assert Spaced(c, s.table[t]) && Named(t, s.table[t]);
    var s' := Apply(c, s, Remove(t, k));
    RemoveSpaced(c, t, s.table[t], k);
    ShrinkKeeps(c, s, s', t);
  }

  /** Steps that change only where one instance stands and which locks it holds. */
  lemma LocalKeeps(c: Config, s: State, step: Step)
    requires Inv(c, s) && Enabled(s, step)
    requires step.Snapshot? || step.Begin? || step.Finish? || step.Try? || step.Acquire? || step.Release? || step.Die?
    ensures Inv(c, Apply(c, s, step))
  {
    var s' := Apply(c, s, step);
    forall j ensures PhaseOf(s', j) == if j == step.i then s'.phases[step.i] else PhaseOf(s, j) {}
    forall j, t ensures InCritical(PhaseOf(s', j), t) <==> t in s'.locks && s'.locks[t] == j {
      assert InCritical(PhaseOf(s, j), t) <==> t in s.locks && s.locks[t] == j;
      if step.Acquire? || step.Release? {
        assert step.Release? ==> InCritical(PhaseOf(s, step.i), PhaseOf(s, step.i).target);
      }
    }
  }

  lemma StepKeepsInv(c: Config, s: State, step: Step)
    requires ValidConfig(c) && Inv(c, s) && Enabled(s, step)
    ensures Inv(c, Apply(c, s, step))
  {
    match step
    case Inspect(i) => InspectKeeps(c, s, i);
    case Commit(i, random) => CommitKeeps(c, s, i, random);
    case Fire(t, k) => FireKeeps(c, s, t, k);
    case Remove(t, k) => RemoveKeeps(c, s, t, k);
    case _ => LocalKeeps(c, s, step);
  }

  lemma {:induction false} ExecuteKeepsInv(c: Config, s: State, steps: seq<Step>)
    requires ValidConfig(c) && Inv(c, s) && Execute(c, s, steps).Some?
    ensures Inv(c, Execute(c, s, steps).value)
    decreases |steps|
  {
    if steps != [] {
      StepKeepsInv(c, s, steps[0]);
      ExecuteKeepsInv(c, Apply(c, s, steps[0]), steps[1..]);
    }
  }

  lemma ReachableInv(c: Config, s: State)
    requires ValidConfig(c) && Reachable(c, s)
    ensures Inv(c, s)
  {
    var table :| TableGood(c, table) && ReachableFrom(c, table, s);
    var steps :| Execute(c, Start(table), steps) == Some(s);
    ExecuteKeepsInv(c, Start(table), steps);
  }

  // ---------------------------------------------------------------- what no table can spoil

  lemma LocksKept(c: Config, s: State, step: Step)
    requires LocksMatch(s) && Enabled(s, step)
    ensures LocksMatch(Apply(c, s, step))
  {
    var s' := Apply(c, s, step);
    if step.Fire? || step.Remove? {
      forall j ensures PhaseOf(s', j) == PhaseOf(s, j) {}
    } else {
      forall j ensures PhaseOf(s', j) == if j == step.i then s'.phases[step.i] else PhaseOf(s, j) {}
    }
    forall j, t ensures InCritical(PhaseOf(s', j), t) <==> t in s'.locks && s'.locks[t] == j {
      assert InCritical(PhaseOf(s, j), t) <==> t in s.locks && s.locks[t] == j;
      if step.Acquire? || step.Release? || step.Inspect? || step.Commit? {
        var u := PhaseOf(s, step.i).target;
        assert !step.Acquire? ==> InCritical(PhaseOf(s, step.i), u);
      }
    }
  }

  lemma {:induction false} ExecuteKeepsLocks(c: Config, s: State, steps: seq<Step>)
    requires LocksMatch(s) && Execute(c, s, steps).Some?
    ensures LocksMatch(Execute(c, s, steps).value)
    decreases |steps|
  {
    if steps != [] {
      LocksKept(c, s, steps[0]);
      ExecuteKeepsLocks(c, Apply(c, s, steps[0]), steps[1..]);
    }
  }

  lemma OneInCritical(s: State, i: Instance, j: Instance, t: Target)
    requires LocksMatch(s) && InCritical(PhaseOf(s, i), t) && InCritical(PhaseOf(s, j), t)
    ensures i == j
  {
    assert s.locks[t] == i;
    assert s.locks[t] == j;
  }

  /** Only the newest entry may be enabled. */
  ghost predicate NewestOnly(es: seq<Entry>) {
    forall k :: 0 <= k < |es| - 1 ==> !es[k].enabled
  }

  /** The instance has seen a stale target and is about to create its next entry. */
  ghost predicate Decides(s: State, i: Instance, t: Target) {
    PhaseOf(s, i).Deciding? && PhaseOf(s, i).target == t && PhaseOf(s, i).next.Some?
  }

  /** Only the newest entry of the target is enabled, and none while an instance is about to
      create another. */
  ghost predicate Safe(s: State, t: Target) {
    && NewestOnly(EntriesOf(s.table, t))
    && forall i :: Decides(s, i, t) ==> !HasEnabled(EntriesOf(s.table, t))
  }

  ghost predicate SameFlags(es: seq<Entry>, es': seq<Entry>) {
    |es| == |es'| && forall k :: 0 <= k < |es| ==> es'[k].enabled == es[k].enabled
  }

  /** Whatever the table holds, creating touches no flag of an old entry, and adds at most one
      entry, at the end of its own target. */
  lemma CreateFlags(c: Config, table: map<Target, seq<Entry>>, t: Target, next: int, random: string, u: Target)
    ensures var es, es' := EntriesOf(table, u), EntriesOf(Create(c, table, t, next, random), u);
      SameFlags(es, es') || (u == t && |es'| == |es| + 1 && es'[..|es|] == es)
  {}

  lemma CommitSafe(c: Config, s: State, i: Instance, random: string, t: Target)
    requires LocksMatch(s) && Safe(s, t) && Enabled(s, Commit(i, random))
    ensures Safe(Apply(c, s, Commit(i, random)), t)
  {
    var p := PhaseOf(s, i);
    var s' := Apply(c, s, Commit(i, random));
    var es, es' := EntriesOf(s.table, t), EntriesOf(s'.table, t);
    forall j ensures Decides(s', j, t) ==> j != i && Decides(s, j, t) {
      assert PhaseOf(s', j) == if j == i then s'.phases[i] else PhaseOf(s, j);
    }
    if p.next.Some? {
      CreateFlags(c, s.table, p.target, p.next.value, random, t);
      if !SameFlags(es, es') {
        assert Decides(s, i, t);
        assert forall k :: 0 <= k < |es| ==> es'[..|es|][k] == es'[k];
        forall j | Decides(s, j, t) ensures j == i {
          OneInCritical(s, i, j, t);
        }
      }
    }
  }

  lemma InspectSafe(c: Config, s: State, i: Instance, t: Target)
    requires Safe(s, t) && Enabled(s, Inspect(i))
    ensures Safe(Apply(c, s, Inspect(i)), t)
  {
    var s' := Apply(c, s, Inspect(i));
    var es := EntriesOf(s.table, t);
    forall j ensures PhaseOf(s', j) == if j == i then s'.phases[i] else PhaseOf(s, j) {}
    forall j | Decides(s', j, t) ensures !HasEnabled(es) {
      if j == i {
        assert !Fresh(c, es, PhaseOf(s, i).loop.now);
      } else {
        assert Decides(s, j, t);
      }
    }
  }

  lemma SafeKept(c: Config, s: State, step: Step, t: Target)
    requires LocksMatch(s) && Safe(s, t) && Enabled(s, step)
    ensures Safe(Apply(c, s, step), t)
  {
    var s' := Apply(c, s, step);
    var es, es' := EntriesOf(s.table, t), EntriesOf(s'.table, t);
    match step
    case Commit(i, random) => CommitSafe(c, s, i, random, t);
    case Remove(u, k) =>
      forall j ensures PhaseOf(s', j) == PhaseOf(s, j) {}
      if u == t {
        assert forall l :: 0 <= l < |es'| ==> es'[l] == es[if l < k then l else l + 1];
      }
      assert forall i :: Decides(s', i, t) ==> Decides(s, i, t);
    case Fire(u, k) =>
      forall j ensures PhaseOf(s', j) == PhaseOf(s, j) {}
      assert forall i :: Decides(s', i, t) ==> Decides(s, i, t);
    case Inspect(i) => InspectSafe(c, s, i, t);
    case _ =>
      forall j ensures PhaseOf(s', j) == if j == step.i then s'.phases[step.i] else PhaseOf(s, j) {}
      assert forall i :: Decides(s', i, t) ==> Decides(s, i, t);
  }

  lemma {:induction false} ExecuteKeepsSafe(c: Config, s: State, steps: seq<Step>, t: Target)
    requires LocksMatch(s) && Safe(s, t) && Execute(c, s, steps).Some?
    ensures Safe(Execute(c, s, steps).value, t)
    decreases |steps|
  {
    if steps != [] {
      LocksKept(c, s, steps[0]);
      SafeKept(c, s, steps[0], t);
      ExecuteKeepsSafe(c, Apply(c, s, steps[0]), steps[1..], t);
    }
  }

  // ---------------------------------------------------------------- main results

  /** Whatever the interleaving, and whatever other services had put into the table: if at the
      start only newest entries were enabled, then only the newest entry of a target can be
      enabled, so there is at most one. */
  lemma AtMostOneEnabled(c: Config, table: map<Target, seq<Entry>>, s: State, t: Target, k: nat)
    requires NewestOnly(EntriesOf(table, t)) && ReachableFrom(c, table, s)
    requires k < |EntriesOf(s.table, t)| && EntriesOf(s.table, t)[k].enabled
    ensures k == |EntriesOf(s.table, t)| - 1
    ensures forall l :: 0 <= l < |EntriesOf(s.table, t)| && EntriesOf(s.table, t)[l].enabled ==> l == k
  {
    var steps :| Execute(c, Start(table), steps) == Some(s);
    ExecuteKeepsSafe(c, Start(table), steps, t);
  }

  /** Two instances are never in the critical section of one target together. */
  lemma MutualExclusion(
    c: Config, table: map<Target, seq<Entry>>, s: State, i: Instance, j: Instance, t: Target)
    requires ReachableFrom(c, table, s)
    requires InCritical(PhaseOf(s, i), t) && InCritical(PhaseOf(s, j), t)
    ensures i == j
  {
    var steps :| Execute(c, Start(table), steps) == Some(s);
    ExecuteKeepsLocks(c, Start(table), steps);
    OneInCritical(s, i, j, t);
  }

  /** Clocked times of a target strictly increase in id order by more than the cooldown,
      whatever the instances' clocks say, so the name of an entry that a scheduler made for a
      job differs from those of the job's other entries. */
  lemma TimesAndNamesDiffer(c: Config, s: State, t: Target, k: nat, l: nat)
    requires ValidConfig(c) && Reachable(c, s) && 1 <= c.cooldownSeconds && c.isJob(t)
    requires k < l < |EntriesOf(s.table, t)|
    ensures EntriesOf(s.table, t)[k].clocked + Cooldown(c) < EntriesOf(s.table, t)[l].clocked
    ensures EntriesOf(s.table, t)[k].name.Stamped? || EntriesOf(s.table, t)[l].name.Stamped? ==>
      EntriesOf(s.table, t)[k].name != EntriesOf(s.table, t)[l].name
  {
    ReachableInv(c, s);
    var es := s.table[t];
    assert Spaced(c, es) && NamedEntry(t, es[k]) && NamedEntry(t, es[l]) by {
      assert Named(t, es);
    }
    assert es[k].clocked + 1000 <= es[l].clocked;
  }

  /** A commit with a next occurrence always adds exactly one entry, enabled and newest, and
      touches no other target: neither the lookup by task nor the unique name gets in its way. */
  lemma CommitAddsOne(c: Config, s: State, i: Instance, random: string)
    requires ValidConfig(c) && Reachable(c, s) && 1 <= c.cooldownSeconds
    requires Enabled(s, Commit(i, random)) && PhaseOf(s, i).next.Some?
    ensures var p := PhaseOf(s, i);
      var es, es' := EntriesOf(s.table, p.target), EntriesOf(Apply(c, s, Commit(i, random)).table, p.target);
      && |es'| == |es| + 1 && es'[..|es|] == es
      && es'[|es|].enabled && es'[|es|].clocked == p.next.value
    ensures forall u :: u != PhaseOf(s, i).target ==>
      EntriesOf(Apply(c, s, Commit(i, random)).table, u) == EntriesOf(s.table, u)
  {
    ReachableInv(c, s);
    var p := PhaseOf(s, i);
    var es := EntriesOf(s.table, p.target);
    assert AllStale(c, es, p.loop.now);
    assert AllStale(c, es, p.next.value);
    NoTaskMatches(c, s.table, p.target, p.next.value / 1000);
    if c.isJob(p.target) {
      NameIsFree(c, s.table, p.target, p.next.value);
    }
  }

  // ---------------------------------------------------------------- one instance's loop

  /** What one turn of the loop does to the table when the lock is free. */
  function RescheduleOne(c: Config, table: map<Target, seq<Entry>>, t: Target, now: int, random: string)
    : map<Target, seq<Entry>>
  {
    if Fresh(c, EntriesOf(table, t), now) then table
    else
      match c.after(t, now)
      case None => table
      case Some(next) => Create(c, table, t, next, random)
  }

  /** The loop without interference; targets whose lock another instance holds are passed over. */
  function RescheduleAll(
    c: Config, table: map<Target, seq<Entry>>, locked: set<Target>, now: int, todo: seq<Target>, randoms: seq<string>)
    : map<Target, seq<Entry>>
    requires |randoms| == |todo|
    decreases |todo|
  {
    if todo == [] then table
    else
      var table' := if todo[0] in locked then table else RescheduleOne(c, table, todo[0], now, randoms[0]);
      RescheduleAll(c, table', locked, now, todo[1..], randoms[1..])
  }

  /** The tables an instance works on: the periodic tasks and the Redis locks. */
  class Database {
    var table: map<Target, seq<Entry>>
    var locks: map<Target, Instance>

    constructor ()
      ensures table == map[] && locks == map[]
    {
      table, locks := map[], map[];
    }
  }

  /** `reschedule_jobs` and `reschedule_workflows`: the lock of each target is tested, taken
      and given back within its turn, also when a rule has no further occurrence. */
  method Reschedule(
    self: Instance, db: Database, c: Config, now: int, list: seq<Target>, queued: set<Target>, randoms: seq<string>)
    requires |randoms| == |list|
    modifies db
    ensures db.table == RescheduleAll(c, old(db.table), old(db.locks.Keys) + queued, now, list, randoms)
    ensures ValidConfig(c) && TableGood(c, old(db.table)) && 1 <= c.cooldownSeconds ==> forall t ::
      if t in list && t !in old(db.locks.Keys) + queued
      then Scheduled(c, t, now, EntriesOf(old(db.table), t), EntriesOf(db.table, t))
      else EntriesOf(db.table, t) == EntriesOf(old(db.table), t)
    ensures db.locks == old(db.locks)
  {
    ghost var passed := db.locks.Keys + queued;
    for n := 0 to |list|
      invariant db.locks == old(db.locks)
      invariant RescheduleAll(c, db.table, passed, now, list[n..], randoms[n..])
        == RescheduleAll(c, old(db.table), passed, now, list, randoms)
    {
      var target := list[n];
      assert list[n..][1..] == list[n + 1..] && randoms[n..][1..] == randoms[n + 1..];
      if target in queued {
        continue;
      }
      if target in db.locks {
        continue;
      }
      db.locks := db.locks[target := self];
      var entries := EntriesOf(db.table, target);
      if !Fresh(c, entries, now) {
        var next := c.after(target, now);
        if next.Some? {
          db.table := Create(c, db.table, target, next.value, randoms[n]);
        }
      }
      db.locks := db.locks - {target};
      assert db.locks == old(db.locks);
    }
    if ValidConfig(c) && TableGood(c, old(db.table)) && 1 <= c.cooldownSeconds {
      LoopSchedulesAll(c, old(db.table), passed, now, list, randoms);
    }
  }

  ghost predicate Distinct(randoms: seq<string>) {
    forall k, l :: 0 <= k < l < |randoms| ==> randoms[k] != randoms[l]
  }

  lemma CreateNames(c: Config, table: map<Target, seq<Entry>>, t: Target, next: int, random: string, name: Label)
    requires !NameTaken(table, name) && name != Random(random) && !name.Stamped?
    ensures !NameTaken(Create(c, table, t, next, random), name)
  {
    var table': map<Target, seq<Entry>> := Create(c, table, t, next, random);
    forall u: Target, k: nat | u in table' && k < |table'[u]|
      ensures table'[u][k].name != name
    {
      if u in table && k < |table[u]| {
        assert table[u][k].name != name;
      }
    }
  }

  lemma {:induction false} ExecuteAppend(c: Config, s: State, a: seq<Step>, b: seq<Step>)
    requires Execute(c, s, a).Some?
    ensures Execute(c, s, a + b) == Execute(c, Execute(c, s, a).value, b)
    decreases |a|
  {
    if a == [] {
      assert a + b == b;
    } else {
      assert (a + b)[1..] == a[1..] + b;
      ExecuteAppend(c, Apply(c, s, a[0]), a[1..], b);
    }
  }

  lemma ExecuteFirst(c: Config, s: State, step: Step, rest: seq<Step>)
    requires Enabled(s, step)
    ensures Execute(c, s, [step] + rest) == Execute(c, Apply(c, s, step), rest)
  {
    assert ([step] + rest)[1..] == rest;
  }

  /** The critical section as steps: inspect, perhaps commit, release. */
  lemma CriticalIsSteps(c: Config, s: State, i: Instance, random: string) returns (steps: seq<Step>, s': State)
    requires PhaseOf(s, i).Holding? && !NameTaken(s.table, Random(random))
    ensures var p := PhaseOf(s, i);
      && Execute(c, s, steps) == Some(s')
      && PhaseOf(s', i) == Scanning(p.loop) && s'.locks == s.locks - {p.target}
      && s'.table == RescheduleOne(c, s.table, p.target, p.loop.now, random)
  {
    var s1 := Apply(c, s, Inspect(i));
    if PhaseOf(s1, i).Leaving? {
      s' := Apply(c, s1, Release(i));
      steps := [Inspect(i)] + ([Release(i)] + []);
      ExecuteFirst(c, s1, Release(i), []);
      ExecuteFirst(c, s, Inspect(i), [Release(i)] + []);
    } else {
      var s2 := Apply(c, s1, Commit(i, random));
      s' := Apply(c, s2, Release(i));
      steps := [Inspect(i)] + ([Commit(i, random)] + ([Release(i)] + []));
      ExecuteFirst(c, s2, Release(i), []);
      ExecuteFirst(c, s1, Commit(i, random), [Release(i)] + []);
      ExecuteFirst(c, s, Inspect(i), [Commit(i, random)] + ([Release(i)] + []));
    }
  }

  /** One turn of the loop as steps. */
  lemma TurnIsSteps(c: Config, s: State, i: Instance, loop: Loop, random: string) returns (steps: seq<Step>, s': State)
    requires PhaseOf(s, i) == Scanning(loop) && loop.todo != []
    requires !NameTaken(s.table, Random(random))
    ensures Execute(c, s, steps) == Some(s')
    ensures s'.locks == s.locks && PhaseOf(s', i) == Scanning(loop.(todo := loop.todo[1..]))
    ensures s'.table == if loop.todo[0] in s.locks then s.table
      else RescheduleOne(c, s.table, loop.todo[0], loop.now, random)
  {
    var t := loop.todo[0];
    var s1 := Apply(c, s, Try(i));
    if t in s.locks {
      steps, s' := [Try(i)] + [], s1;
      ExecuteFirst(c, s, Try(i), []);
    } else {
      var s2 := Apply(c, s1, Acquire(i));
      var rest;
      rest, s' := CriticalIsSteps(c, s2, i, random);
      ExecuteFirst(c, s1, Acquire(i), rest);
      ExecuteFirst(c, s, Try(i), [Acquire(i)] + rest);
      steps := [Try(i)] + ([Acquire(i)] + rest);
      assert s'.locks == s.locks;
    }
  }

  /** The loop refines the step system: run alone, it is one particular list of steps, so
      every invariant above holds of it. */
  lemma {:induction false} LoopIsSteps(c: Config, s: State, i: Instance, loop: Loop, randoms: seq<string>)
    returns (steps: seq<Step>, s': State)
    requires ValidConfig(c) && Inv(c, s) && PhaseOf(s, i) == Scanning(loop) && |randoms| == |loop.todo|
    requires Distinct(randoms)
    requires forall k :: 0 <= k < |randoms| ==> !NameTaken(s.table, Random(randoms[k]))
    ensures Execute(c, s, steps) == Some(s') && Inv(c, s')
    ensures s'.table == RescheduleAll(c, s.table, s.locks.Keys, loop.now, loop.todo, randoms)
    ensures s'.locks == s.locks && PhaseOf(s', i) == Scanning(loop.(todo := []))
    decreases |loop.todo|
  {
    if loop.todo == [] {
      steps, s' := [], s;
    } else {
      var first, s1 := TurnIsSteps(c, s, i, loop, randoms[0]);
      ExecuteKeepsInv(c, s, first);
      forall k | 0 <= k < |randoms[1..]|
        ensures !NameTaken(s1.table, Random(randoms[1..][k]))
      {
        assert randoms[1..][k] == randoms[k + 1];
        if s1.table != s.table {
          CreateNames(c, s.table, loop.todo[0], c.after(loop.todo[0], loop.now).value, randoms[0],
            Random(randoms[k + 1]));
        }
      }
      var rest, s2 := LoopIsSteps(c, s1, i, loop.(todo := loop.todo[1..]), randoms[1..]);
      ExecuteAppend(c, s, first, rest);
      steps, s' := first + rest, s2;
    }
  }

  /** A target is due if it has no entry, or its newest entry is disabled and lies more than the
      cooldown in the past. */
  predicate Due(cooldownSeconds: nat, es: seq<Entry>, now: int) {
    es == [] || (!es[|es| - 1].enabled && 1000 * cooldownSeconds < now - es[|es| - 1].clocked)
  }

  /** The entry a scheduler makes: for a job, named after the second of its time and calling the
      job's function; for a workflow, randomly named and starting a run. */
  ghost predicate MadeFor(c: Config, t: Target, next: int, e: Entry) {
    && e.enabled && e.clocked == next
    && if c.isJob(t) then e.name == Stamped(t, next / 1000) && e.task == Path(c.functionName(t))
       else e.name.Random? && e.task == Path("celerytasks.tasks.run_workflow")
  }

  /** What scheduling does to the entries of a target: a due one whose rule goes on gets exactly
      one more, at its next occurrence; any other keeps what it has. */
  ghost predicate Scheduled(c: Config, t: Target, now: int, es: seq<Entry>, es': seq<Entry>) {
    if Due(c.cooldownSeconds, es, now) && c.after(t, now).Some?
    then |es'| == |es| + 1 && es'[..|es|] == es && MadeFor(c, t, c.after(t, now).value, es'[|es|])
    else es' == es
  }

  lemma OneTurn(c: Config, table: map<Target, seq<Entry>>, t: Target, now: int, random: string)
    requires ValidConfig(c) && TableGood(c, table) && 1 <= c.cooldownSeconds
    ensures var table' := RescheduleOne(c, table, t, now, random);
      && TableGood(c, table')
      && (forall u :: u != t ==> EntriesOf(table', u) == EntriesOf(table, u))
      && Scheduled(c, t, now, EntriesOf(table, t), EntriesOf(table', t))
  {
    var es := EntriesOf(table, t);
    if !Fresh(c, es, now) && c.after(t, now).Some? {
      assert AllStale(c, es, now) by {
        assert t in table ==> Spaced(c, table[t]);
      }
      CreateKeepsTable(c, table, t, now, random);
      var next := c.after(t, now).value;
      NoTaskMatches(c, table, t, next / 1000);
      if c.isJob(t) {
        NameIsFree(c, table, t, next);
      }
    }
  }

  /** A target that was scheduled, or had no need, is not due any more. */
  lemma NoLongerDue(c: Config, t: Target, now: int, es: seq<Entry>, es': seq<Entry>)
    requires Scheduled(c, t, now, es, es') && c.after(t, now).Some?
    ensures !Due(c.cooldownSeconds, es', now)
    ensures es' != [] && (es'[|es'| - 1].enabled || now - es'[|es'| - 1].clocked <= 1000 * c.cooldownSeconds)
  {}

  /** After a loop: each target it lists and can lock has been scheduled, exactly once however often
      it is listed, and every other target has the entries it had. */
  lemma {:induction false} LoopSchedulesAll(
    c: Config, table: map<Target, seq<Entry>>, locked: set<Target>, now: int, todo: seq<Target>, randoms: seq<string>)
    requires ValidConfig(c) && TableGood(c, table) && |randoms| == |todo| && 1 <= c.cooldownSeconds
    ensures var table' := RescheduleAll(c, table, locked, now, todo, randoms);
      && TableGood(c, table')
      && (forall t :: t in todo && t !in locked ==> Scheduled(c, t, now, EntriesOf(table, t), EntriesOf(table', t)))
      && (forall t :: t !in todo || t in locked ==> EntriesOf(table', t) == EntriesOf(table, t))
    decreases |todo|
  {
    if todo != [] {
      var t := todo[0];
      var table1 := if t in locked then table else RescheduleOne(c, table, t, now, randoms[0]);
      var table' := RescheduleAll(c, table, locked, now, todo, randoms);
      OneTurn(c, table, t, now, randoms[0]);
      LoopSchedulesAll(c, table1, locked, now, todo[1..], randoms[1..]);
      forall u | u in todo && u !in locked
        ensures Scheduled(c, u, now, EntriesOf(table, u), EntriesOf(table', u))
      {
        if u in todo[1..] && u == t && c.after(t, now).Some? {
          NoLongerDue(c, t, now, EntriesOf(table, t), EntriesOf(table1, t));
        }
      }
    }
  }

  /** So after a loop, no target that it lists, can lock, and whose rule goes on is left without a
      newest entry that is enabled or at most a cooldown old. */
  lemma LoopLeavesNoneDue(
    c: Config, table: map<Target, seq<Entry>>, locked: set<Target>, now: int, todo: seq<Target>,
    randoms: seq<string>, t: Target)
    requires ValidConfig(c) && TableGood(c, table) && |randoms| == |todo| && 1 <= c.cooldownSeconds
    requires t in todo && t !in locked && c.after(t, now).Some?
    ensures var es := EntriesOf(RescheduleAll(c, table, locked, now, todo, randoms), t);
      es != [] && (es[|es| - 1].enabled || now - es[|es| - 1].clocked <= 1000 * c.cooldownSeconds)
  {
    var table' := RescheduleAll(c, table, locked, now, todo, randoms);
    LoopSchedulesAll(c, table, locked, now, todo, randoms);
    NoLongerDue(c, t, now, EntriesOf(table, t), EntriesOf(table', t));
  }
}
