/** The worker creates the next entry of a job itself, without the lock of the schedulers. From
    which states can two entries of a target never be enabled together, whatever the
    schedulers, beat and deletions do? The answer is exact for every state. */
module UnlockedCreation {
  import opened Wrappers
  import opened Rescheduler

  function PositionOf(es: seq<Entry>, name: Label): (at: Option<nat>)
    ensures at.Some? ==> at.value < |es| && es[at.value].name == name
    ensures at.None? ==> forall k :: 0 <= k < |es| ==> es[k].name != name
  {
    if es == [] then None
    else if es[0].name == name then Some(0)
    else
      match PositionOf(es[1..], name)
      case None => assert forall k :: 0 < k < |es| ==> es[k] == es[1..][k - 1]; None
      case Some(k) => Some(k + 1)
  }

  /** An entry with the name is overwritten where it is, otherwise one is created. A dated name
      carries its job's id, so it is found among that job's entries or not at all. */
  function CreateUnlocked(table: map<Target, seq<Entry>>, t: Target, e: Entry): map<Target, seq<Entry>> {
    match PositionOf(EntriesOf(table, t), e.name)
    case Some(k) => table[t := EntriesOf(table, t)[k := e]]
    case None => Append(table, t, e)
  }

  /** Where the entry is afterwards. */
  function PlaceOf(es: seq<Entry>, name: Label): (at: nat)
    ensures at <= |es|
  {
    match PositionOf(es, name)
    case Some(k) => k
    case None => |es|
  }

  function AfterUnlocked(s: State, t: Target, e: Entry): State {
    s.(table := CreateUnlocked(s.table, t, e))
  }

  ghost predicate OneEnabled(es: seq<Entry>) {
    forall k, l :: 0 <= k < |es| && 0 <= l < |es| && es[k].enabled && es[l].enabled ==> k == l
  }

  /** In no later state, whatever happens, are two entries of the target enabled. */
  ghost predicate AlwaysOneEnabled(c: Config, s: State, t: Target) {
    forall steps :: Execute(c, s, steps).Some? ==> OneEnabled(EntriesOf(Execute(c, s, steps).value.table, t))
  }

  // ---------------------------------------------------------------- tidy tables

  predicate Stands(table: map<Target, seq<Entry>>, t: Target, k: nat) {
    t in table && k < |table[t]|
  }

  /** The task column holds function paths. */
  ghost predicate PathTasks(table: map<Target, seq<Entry>>) {
    forall t, k: nat :: Stands(table, t, k) ==> table[t][k].task.Path?
  }

  /** No two entries have the same stamped name. Names are unique in the database; only those
      the schedulers give matter here. */
  ghost predicate StampedOnce(table: map<Target, seq<Entry>>) {
    forall t, k: nat, u, l: nat :: Stands(table, t, k) && Stands(table, u, l) ==>
      (table[t][k].name.Stamped? && table[t][k].name == table[u][l].name ==> t == u && k == l)
  }

  ghost predicate Tidy(table: map<Target, seq<Entry>>) {
    PathTasks(table) && StampedOnce(table)
  }

  lemma PathsNeverMatch(table: map<Target, seq<Entry>>, t: Target, second: int)
    requires PathTasks(table)
    ensures Matches(table, Stamped(t, second)) == {}
  {
    forall u, k: nat | u in table && k < |table[u]| ensures table[u][k].task != Stamped(t, second) {
      assert Stands(table, u, k);
    }
  }

  /** The name a scheduler would give the next entry is that of `e`, so that creating it raises
      while `e` is there. */
  predicate Clash(c: Config, t: Target, e: Entry, next: int) {
    c.isJob(t) && e.name == Stamped(t, next / 1000)
  }

  predicate NextEntry(c: Config, t: Target, next: int, random: string, e: Entry) {
    && e.enabled && e.task.Path? && e.clocked == next
    && e.name == if c.isJob(t) then Stamped(t, next / 1000) else Random(random)
  }

  ghost predicate Grown(es: seq<Entry>, es': seq<Entry>) {
    es' == es || (|es'| == |es| + 1 && es'[..|es|] == es && es'[|es|].enabled)
  }

  /** In a tidy table the transaction of a scheduler adds an enabled entry or, if the name is
      taken, does nothing. */
  lemma CreateIs(c: Config, table: map<Target, seq<Entry>>, t: Target, next: int, random: string)
    requires PathTasks(table)
    ensures var table' := Create(c, table, t, next, random);
      if c.isJob(t) && NameTaken(table, Stamped(t, next / 1000)) then table' == table
      else exists e: Entry :: NextEntry(c, t, next, random, e) && table' == Append(table, t, e)
  {
    PathsNeverMatch(table, t, next / 1000);
    var name := if c.isJob(t) then Stamped(t, next / 1000) else Random(random);
    var task := if c.isJob(t) then Path(c.functionName(t)) else Path("celerytasks.tasks.run_workflow");
    assert NextEntry(c, t, next, random, Entry(name, task, next, true));
  }

  lemma CreateGrows(c: Config, table: map<Target, seq<Entry>>, t: Target, next: int, random: string, u: Target)
    requires PathTasks(table)
    ensures Grown(EntriesOf(table, u), EntriesOf(Create(c, table, t, next, random), u))
    ensures u != t ==> EntriesOf(Create(c, table, t, next, random), u) == EntriesOf(table, u)
  {
    CreateIs(c, table, t, next, random);
  }

  lemma AppendTidy(table: map<Target, seq<Entry>>, t: Target, e: Entry)
    requires Tidy(table) && e.task.Path? && (e.name.Stamped? ==> !NameTaken(table, e.name))
    ensures Tidy(Append(table, t, e))
  {
    var table' := Append(table, t, e);
    var n := |EntriesOf(table, t)|;
    forall u, k: nat | Stands(table', u, k)
      ensures if u == t && k == n then table'[u][k] == e else Stands(table, u, k) && table'[u][k] == table[u][k]
    {}
    forall u, k: nat | Stands(table', u, k) && e.name.Stamped? && table'[u][k].name == e.name
      ensures u == t && k == n
    {}
  }

  lemma CreateTidy(c: Config, table: map<Target, seq<Entry>>, t: Target, next: int, random: string)
    requires Tidy(table)
    ensures Tidy(Create(c, table, t, next, random))
  {
    CreateIs(c, table, t, next, random);
    var table' := Create(c, table, t, next, random);
    if table' != table {
      var e: Entry :| NextEntry(c, t, next, random, e) && table' == Append(table, t, e);
      AppendTidy(table, t, e);
    }
  }

  lemma RemoveTidy(table: map<Target, seq<Entry>>, t: Target, k: nat)
    requires Tidy(table) && Stands(table, t, k)
    ensures Tidy(table[t := table[t][..k] + table[t][k + 1..]])
  {
    var table': map<Target, seq<Entry>> := table[t := table[t][..k] + table[t][k + 1..]];
    forall u, l: nat | Stands(table', u, l)
      ensures var l' := if u == t && k <= l then l + 1 else l;
        Stands(table, u, l') && table'[u][l] == table[u][l']
    {}
  }

  lemma TidyKept(c: Config, s: State, step: Step)
    requires Tidy(s.table) && Enabled(s, step)
    ensures Tidy(Apply(c, s, step).table)
  {
    if step.Commit? {
      var p := PhaseOf(s, step.i);
      if p.next.Some? {
        CreateTidy(c, s.table, p.target, p.next.value, step.random);
      }
    } else if step.Remove? {
      RemoveTidy(s.table, step.t, step.k);
    } else if step.Fire? {
      var table' := Apply(c, s, step).table;
      forall u, l: nat | Stands(table', u, l)
        ensures Stands(s.table, u, l) && table'[u][l].name == s.table[u][l].name
          && table'[u][l].task == s.table[u][l].task
      {}
    }
  }

  lemma {:induction false} ExecuteKeepsTidy(c: Config, s: State, steps: seq<Step>)
    requires Tidy(s.table) && Execute(c, s, steps).Some?
    ensures Tidy(Execute(c, s, steps).value.table)
    decreases |steps|
  {
    if steps != [] {
      TidyKept(c, s, steps[0]);
      ExecuteKeepsTidy(c, Apply(c, s, steps[0]), steps[1..]);
    }
  }

  // ---------------------------------------------------------------- the condition

  predicate InLoop(loop: Loop, t: Target, now: int) {
    (t in loop.todo && now == loop.now) || exists b :: b in loop.later && t in b
  }

  /** An instance in this phase may still look at the target, its clock read as `now`. */
  predicate ComesTo(p: Phase, t: Target, now: int) {
    match p
    case Between(batches) => exists b :: b in batches && t in b
    case Scanning(loop) => InLoop(loop, t, now)
    case Entering(u, loop) => (u == t && now == loop.now) || InLoop(loop, t, now)
    case Holding(u, loop) => (u == t && now == loop.now) || InLoop(loop, t, now)
    case Deciding(u, loop, next) => InLoop(loop, t, now)
    case Leaving(u, loop) => InLoop(loop, t, now)
  }

  ghost predicate OnlyEnabled(es: seq<Entry>, at: nat) {
    forall k :: 0 <= k < |es| && k != at ==> !es[k].enabled
  }

  /** An instance that finds entry `m` the newest creates another one beside entry `at`. */
  predicate Adds(c: Config, es: seq<Entry>, t: Target, at: nat, m: nat, now: int)
    requires at < m
  {
    && m < |es| && Cooldown(c) < now - es[m].clocked
    && c.after(t, now).Some? && !Clash(c, t, es[at], c.after(t, now).value)
  }

  /** Nobody has decided to create an entry beside entry `at`. */
  ghost predicate NoneDecides(c: Config, s: State, t: Target, e: Entry) {
    forall i :: Decides(s, i, t) ==> Clash(c, t, e, PhaseOf(s, i).next.value)
  }

  /** Nobody who may still look at the target would create one, whichever of the entries after
      `at` are deleted before. */
  ghost predicate NoneWill(c: Config, s: State, t: Target, es: seq<Entry>, at: nat) {
    forall i, now, m: nat :: at < m && ComesTo(PhaseOf(s, i), t, now) ==> !Adds(c, es, t, at, m, now)
  }

  /** One entry is enabled, and no instance has decided, or will, to create another. */
  ghost predicate Guarded(c: Config, s: State, t: Target, at: nat) {
    var es := EntriesOf(s.table, t);
    && at < |es| && es[at].enabled && OnlyEnabled(es, at)
    && NoneDecides(c, s, t, es[at]) && NoneWill(c, s, t, es, at)
  }

  ghost predicate Contained(c: Config, s: State, t: Target) {
    !HasEnabled(EntriesOf(s.table, t)) || exists at: nat :: Guarded(c, s, t, at)
  }

  // ---------------------------------------------------------------- it is kept

  /** While an entry is enabled, the target gets on no stale list. */
  lemma CameTo(c: Config, s: State, step: Step, t: Target, j: Instance, now: int)
    requires Enabled(s, step) && HasEnabled(EntriesOf(s.table, t))
    requires ComesTo(PhaseOf(Apply(c, s, step), j), t, now)
    ensures ComesTo(PhaseOf(s, j), t, now)
  {
    var s' := Apply(c, s, step);
    if step.Fire? || step.Remove? || step.i != j {
      assert PhaseOf(s', j) == PhaseOf(s, j);
    }
  }

  predicate ClockedAt(es: seq<Entry>, at: nat, l: nat, clocked: int) {
    at < l < |es| && es[l].clocked == clocked
  }

  ghost predicate ClockedAfter(es: seq<Entry>, at: nat, clocked: int) {
    exists l: nat :: ClockedAt(es, at, l, clocked)
  }

  lemma Restated(c: Config, s: State, s': State, t: Target, at: nat, at': nat)
    requires Guarded(c, s, t, at)
    requires var es, es' := EntriesOf(s.table, t), EntriesOf(s'.table, t);
      && at' < |es'| && es'[at'] == es[at] && OnlyEnabled(es', at')
      && forall m: nat :: at' < m < |es'| ==> ClockedAfter(es, at, es'[m].clocked)
    requires forall i, now :: ComesTo(PhaseOf(s', i), t, now) ==> ComesTo(PhaseOf(s, i), t, now)
    requires NoneDecides(c, s', t, EntriesOf(s.table, t)[at])
    ensures Guarded(c, s', t, at')
  {
    var es, es' := EntriesOf(s.table, t), EntriesOf(s'.table, t);
    forall i, now, m: nat | at' < m && ComesTo(PhaseOf(s', i), t, now) ensures !Adds(c, es', t, at', m, now) {
      if m < |es'| {
        var l: nat :| ClockedAt(es, at, l, es'[m].clocked);
        assert !Adds(c, es, t, at, l, now);
      }
    }
  }

  lemma DecidesKept(c: Config, s: State, step: Step, t: Target, at: nat)
    requires Enabled(s, step) && Guarded(c, s, t, at)
    ensures NoneDecides(c, Apply(c, s, step), t, EntriesOf(s.table, t)[at])
  {
    var s' := Apply(c, s, step);
    var es := EntriesOf(s.table, t);
    forall j | Decides(s', j, t) ensures Clash(c, t, es[at], PhaseOf(s', j).next.value) {
      if PhaseOf(s', j) == PhaseOf(s, j) {
        assert Decides(s, j, t);
      } else {
        assert step == Inspect(j) && PhaseOf(s, j).target == t;
        var now := PhaseOf(s, j).loop.now;
        assert !Adds(c, es, t, at, |es| - 1, now) by {
          assert !Fresh(c, es, now);
          assert ComesTo(PhaseOf(s, j), t, now);
        }
      }
    }
  }

  lemma CommitGuarded(c: Config, s: State, i: Instance, random: string, t: Target, at: nat)
    requires Tidy(s.table) && Guarded(c, s, t, at) && Enabled(s, Commit(i, random))
    ensures EntriesOf(Apply(c, s, Commit(i, random)).table, t) == EntriesOf(s.table, t)
  {
    var p := PhaseOf(s, i);
    if p.next.Some? {
      CreateIs(c, s.table, p.target, p.next.value, random);
      if p.target == t {
        assert Decides(s, i, t);
        assert Stands(s.table, t, at);
      }
    }
  }

  lemma RemoveGuarded(c: Config, s: State, k: nat, t: Target, at: nat)
    requires Guarded(c, s, t, at) && Enabled(s, Remove(t, k))
    ensures Contained(c, Apply(c, s, Remove(t, k)), t)
  {
    var s' := Apply(c, s, Remove(t, k));
    var es, es' := EntriesOf(s.table, t), EntriesOf(s'.table, t);
    forall i ensures PhaseOf(s', i) == PhaseOf(s, i) {}
    assert forall l :: 0 <= l < |es'| ==> es'[l] == es[if l < k then l else l + 1];
    if k != at {
      var at' := if k < at then at - 1 else at;
      forall m: nat | at' < m < |es'| ensures ClockedAfter(es, at, es'[m].clocked) {
        assert ClockedAt(es, at, if m < k then m else m + 1, es'[m].clocked);
      }
      DecidesKept(c, s, Remove(t, k), t, at);
      Restated(c, s, s', t, at, at');
    }
  }

  lemma GuardedKept(c: Config, s: State, step: Step, t: Target, at: nat)
    requires Tidy(s.table) && Guarded(c, s, t, at) && Enabled(s, step)
    ensures Contained(c, Apply(c, s, step), t)
  {
    var s' := Apply(c, s, step);
    var es, es' := EntriesOf(s.table, t), EntriesOf(s'.table, t);
    if step.Remove? && step.t == t {
      RemoveGuarded(c, s, step.k, t, at);
    } else if step != Fire(t, at) {
      if step.Commit? {
        CommitGuarded(c, s, step.i, step.random, t, at);
      }
      assert HasEnabled(es);
      forall i, now | ComesTo(PhaseOf(s', i), t, now) ensures ComesTo(PhaseOf(s, i), t, now) {
        CameTo(c, s, step, t, i, now);
      }
      assert |es'| == |es| && OnlyEnabled(es', at) && es'[at] == es[at];
      forall m: nat | at < m < |es'| ensures ClockedAfter(es, at, es'[m].clocked) {
        assert ClockedAt(es, at, m, es'[m].clocked);
      }
      DecidesKept(c, s, step, t, at);
      Restated(c, s, s', t, at, at);
    }
  }

  /** A step from a state without an enabled entry leads to none, or to one made just now. */
  lemma NoneKept(c: Config, s: State, step: Step, t: Target)
    requires LocksMatch(s) && Tidy(s.table) && !HasEnabled(EntriesOf(s.table, t)) && Enabled(s, step)
    ensures Contained(c, Apply(c, s, step), t)
  {
    var s' := Apply(c, s, step);
    var es, es' := EntriesOf(s.table, t), EntriesOf(s'.table, t);
    if step.Commit? && PhaseOf(s, step.i).next.Some? {
      var p := PhaseOf(s, step.i);
      CreateGrows(c, s.table, p.target, p.next.value, step.random, t);
      if es' != es {
        assert forall k :: 0 <= k < |es| ==> es'[k] == es'[..|es|][k];
        forall j ensures !Decides(s', j, t) {
          if Decides(s, j, t) {
            OneInCritical(s, step.i, j, t);
          }
        }
        assert Guarded(c, s', t, |es|);
      }
    } else if step.Remove? && step.t == t {
      assert forall l :: 0 <= l < |es'| ==> es'[l] == es[if l < step.k then l else l + 1];
    }
  }

  lemma {:induction false} ExecuteContained(c: Config, s: State, steps: seq<Step>, t: Target)
    requires LocksMatch(s) && Tidy(s.table) && Contained(c, s, t) && Execute(c, s, steps).Some?
    ensures Contained(c, Execute(c, s, steps).value, t)
    decreases |steps|
  {
    if steps != [] {
      LocksKept(c, s, steps[0]);
      TidyKept(c, s, steps[0]);
      if HasEnabled(EntriesOf(s.table, t)) {
        var at: nat :| Guarded(c, s, t, at);
        GuardedKept(c, s, steps[0], t, at);
      } else {
        NoneKept(c, s, steps[0], t);
      }
      ExecuteContained(c, Apply(c, s, steps[0]), steps[1..], t);
    }
  }

  // ---------------------------------------------------------------- it is needed

  lemma {:induction false} LongerThanAll(names: set<string>) returns (n: nat)
    ensures forall x :: x in names ==> |x| < n
    decreases names
  {
    n := 0;
    if names != {} {
      var x :| x in names;
      var m := LongerThanAll(names - {x});
      n := if m > |x| then m else |x| + 1;
    }
  }

  lemma FreshRandom(table: map<Target, seq<Entry>>) returns (random: string)
    ensures !NameTaken(table, Random(random))
  {
    var names := set u, k: nat | u in table && k < |table[u]| && table[u][k].name.Random? :: table[u][k].name.id;
    var n := LongerThanAll(names);
    random := seq(n, _ => 'a');
    forall u, k: nat | u in table && k < |table[u]| ensures table[u][k].name != Random(random) {
      if table[u][k].name.Random? {
        assert table[u][k].name.id in names;
      }
    }
  }

  lemma Earlier(c: Config, s: State, steps: seq<Step>, t: Target)
    requires Execute(c, s, steps).Some? && !AlwaysOneEnabled(c, Execute(c, s, steps).value, t)
    ensures !AlwaysOneEnabled(c, s, t)
  {
    var s' := Execute(c, s, steps).value;
    var rest :| Execute(c, s', rest).Some? && !OneEnabled(EntriesOf(Execute(c, s', rest).value.table, t));
    ExecuteAppend(c, s, steps, rest);
  }

  lemma EarlierStep(c: Config, s: State, step: Step, t: Target)
    requires Enabled(s, step) && !AlwaysOneEnabled(c, Apply(c, s, step), t)
    ensures !AlwaysOneEnabled(c, s, t)
  {
    ExecuteFirst(c, s, step, []);
    Earlier(c, s, [step] + [], t);
  }

  lemma TwoNow(c: Config, s: State, t: Target, es: seq<Entry>, at: nat)
    requires at < |es| && es[at].enabled && Grown(es, EntriesOf(s.table, t)) && es != EntriesOf(s.table, t)
    ensures !AlwaysOneEnabled(c, s, t)
  {
    var es' := EntriesOf(s.table, t);
    assert es'[at] == es'[..|es|][at];
    assert Execute(c, s, []) == Some(s) && !OneEnabled(es');
  }

  lemma Refuted(c: Config, s: State, steps: seq<Step>, t: Target)
    requires TwoAfter(c, s, steps, t)
    ensures !AlwaysOneEnabled(c, s, t)
  {}

  /** The steps end with two entries of the target enabled. */
  ghost predicate TwoAfter(c: Config, s: State, steps: seq<Step>, t: Target) {
    Execute(c, s, steps).Some? && !OneEnabled(EntriesOf(Execute(c, s, steps).value.table, t))
  }

  lemma DecidedFree(c: Config, s: State, i: Instance, t: Target, at: nat) returns (random: string)
    requires PathTasks(s.table) && Decides(s, i, t)
    requires at < |EntriesOf(s.table, t)| && EntriesOf(s.table, t)[at].enabled
    requires c.isJob(t) ==> !NameTaken(s.table, Stamped(t, PhaseOf(s, i).next.value / 1000))
    ensures TwoAfter(c, s, [Commit(i, random)], t)
  {
    random := FreshRandom(s.table);
    var s1 := Apply(c, s, Commit(i, random));
    var es, es1 := EntriesOf(s.table, t), EntriesOf(s1.table, t);
    CreateIs(c, s.table, t, PhaseOf(s, i).next.value, random);
    assert es1[at] == es1[..|es|][at] && es1[|es|].enabled;
    ExecuteFirst(c, s, Commit(i, random), []);
    assert [Commit(i, random)] + [] == [Commit(i, random)];
  }

  lemma RemoveFrees(table: map<Target, seq<Entry>>, t: Target, k: nat)
    requires StampedOnce(table) && Stands(table, t, k) && table[t][k].name.Stamped?
    ensures !NameTaken(table[t := table[t][..k] + table[t][k + 1..]], table[t][k].name)
  {
    var table': map<Target, seq<Entry>> := table[t := table[t][..k] + table[t][k + 1..]];
    forall u: Target, l: nat | u in table' && l < |table'[u]| ensures table'[u][l].name != table[t][k].name {
      var l' := if u == t && k <= l then l + 1 else l;
      assert Stands(table, u, l') && table'[u][l] == table[u][l'];
    }
  }

  lemma RemovedBeside(c: Config, s: State, t: Target, at: nat, u: Target, k: nat) returns (at': nat)
    requires at < |EntriesOf(s.table, t)| && Stands(s.table, u, k) && !(u == t && k == at)
    ensures var es' := EntriesOf(Apply(c, s, Remove(u, k)).table, t);
      at' < |es'| && es'[at'] == EntriesOf(s.table, t)[at]
    ensures forall i :: PhaseOf(Apply(c, s, Remove(u, k)), i) == PhaseOf(s, i)
  {
    at' := if u == t && k < at then at - 1 else at;
  }

  lemma TakenRaces(c: Config, s: State, i: Instance, t: Target, at: nat, u: Target, k: nat) returns (random: string)
    requires Tidy(s.table) && Decides(s, i, t) && Stands(s.table, u, k)
    requires at < |EntriesOf(s.table, t)| && EntriesOf(s.table, t)[at].enabled
    requires s.table[u][k].name == Stamped(t, PhaseOf(s, i).next.value / 1000)
    requires !(u == t && k == at)
    ensures TwoAfter(c, s, [Remove(u, k), Commit(i, random)], t)
  {
    RemoveFrees(s.table, u, k);
    RemoveTidy(s.table, u, k);
    var at' := RemovedBeside(c, s, t, at, u, k);
    random := DecidedFree(c, Apply(c, s, Remove(u, k)), i, t, at');
    ExecuteFirst(c, s, Remove(u, k), [Commit(i, random)]);
    assert [Remove(u, k)] + [Commit(i, random)] == [Remove(u, k), Commit(i, random)];
  }

  /** A decided instance doubles an enabled entry with its commit, after the deletion of the entry
      that has the name, if there is one. */
  lemma DecidedRaces(c: Config, s: State, i: Instance, t: Target, at: nat) returns (steps: seq<Step>)
    requires Tidy(s.table) && Decides(s, i, t)
    requires at < |EntriesOf(s.table, t)| && EntriesOf(s.table, t)[at].enabled
    requires !Clash(c, t, EntriesOf(s.table, t)[at], PhaseOf(s, i).next.value)
    ensures TwoAfter(c, s, steps, t) && 1 <= |steps| <= 2 && steps[|steps| - 1].Commit?
    ensures |steps| == 2 ==> steps[0].Remove? && NameTaken(s.table, Stamped(t, PhaseOf(s, i).next.value / 1000))
  {
    var name := Stamped(t, PhaseOf(s, i).next.value / 1000);
    if c.isJob(t) && NameTaken(s.table, name) {
      var u, k: nat :| u in s.table && k < |s.table[u]| && s.table[u][k].name == name;
      var random := TakenRaces(c, s, i, t, at, u, k);
      steps := [Remove(u, k), Commit(i, random)];
    } else {
      var random := DecidedFree(c, s, i, t, at);
      steps := [Commit(i, random)];
    }
  }

  /** An instance that looks at the target at `now` finds its newest entry stale, although an older
      one is enabled. */
  ghost predicate Trap(c: Config, s: State, t: Target, at: nat, now: int) {
    var es := EntriesOf(s.table, t);
    && LocksMatch(s) && Tidy(s.table)
    && at < |es| - 1 && es[at].enabled && !es[|es| - 1].enabled && Adds(c, es, t, at, |es| - 1, now)
  }

  /** The holder of a lock can stop, which frees it. */
  lemma FreeLock(c: Config, s: State, i: Instance, u: Target) returns (steps: seq<Step>, s': State)
    requires LocksMatch(s) && !InCritical(PhaseOf(s, i), u)
    ensures Execute(c, s, steps) == Some(s') && LocksMatch(s') && u !in s'.locks
    ensures s'.table == s.table && PhaseOf(s', i) == PhaseOf(s, i)
  {
    if u in s.locks {
      var j := s.locks[u];
      assert InCritical(PhaseOf(s, j), u);
      steps, s' := [Die(j)] + [], Apply(c, s, Die(j));
      ExecuteFirst(c, s, Die(j), []);
      LocksKept(c, s, Die(j));
    } else {
      steps, s' := [], s;
    }
  }

  lemma HoldingTrap(c: Config, s: State, i: Instance, t: Target, at: nat)
    requires PhaseOf(s, i).Holding? && PhaseOf(s, i).target == t && Trap(c, s, t, at, PhaseOf(s, i).loop.now)
    ensures !AlwaysOneEnabled(c, s, t)
  {
    var steps := DecidedRaces(c, Apply(c, s, Inspect(i)), i, t, at);
    Refuted(c, Apply(c, s, Inspect(i)), steps, t);
    EarlierStep(c, s, Inspect(i), t);
  }

  lemma EnteringTrap(c: Config, s: State, i: Instance, t: Target, at: nat)
    requires PhaseOf(s, i).Entering? && PhaseOf(s, i).target == t && Trap(c, s, t, at, PhaseOf(s, i).loop.now)
    ensures !AlwaysOneEnabled(c, s, t)
  {
    var steps, s1 := FreeLock(c, s, i, t);
    LocksKept(c, s1, Acquire(i));
    HoldingTrap(c, Apply(c, s1, Acquire(i)), i, t, at);
    EarlierStep(c, s1, Acquire(i), t);
    Earlier(c, s, steps, t);
  }

  lemma ScanningTrap(c: Config, s: State, i: Instance, t: Target, at: nat)
    requires PhaseOf(s, i).Scanning? && PhaseOf(s, i).loop.todo != [] && PhaseOf(s, i).loop.todo[0] == t
    requires Trap(c, s, t, at, PhaseOf(s, i).loop.now)
    ensures !AlwaysOneEnabled(c, s, t)
  {
    var steps, s1 := FreeLock(c, s, i, t);
    LocksKept(c, s1, Try(i));
    EnteringTrap(c, Apply(c, s1, Try(i)), i, t, at);
    EarlierStep(c, s1, Try(i), t);
    Earlier(c, s, steps, t);
  }

  lemma TurnGrows(c: Config, table: map<Target, seq<Entry>>, u: Target, now: int, random: string, t: Target)
    requires PathTasks(table)
    ensures Grown(EntriesOf(table, t), EntriesOf(RescheduleOne(c, table, u, now, random), t))
  {
    if c.after(u, now).Some? {
      CreateGrows(c, table, u, c.after(u, now).value, random, t);
    }
  }

  /** From within a turn, an instance gets on to the rest of its list. */
  lemma TurnEnds(c: Config, s: State, i: Instance, t: Target) returns (steps: seq<Step>, s': State)
    requires LocksMatch(s) && PathTasks(s.table) && !PhaseOf(s, i).Between? && !PhaseOf(s, i).Scanning?
    ensures Execute(c, s, steps) == Some(s') && PhaseOf(s', i) == Scanning(PhaseOf(s, i).loop)
    ensures Grown(EntriesOf(s.table, t), EntriesOf(s'.table, t))
  {
    var p := PhaseOf(s, i);
    var random := FreshRandom(s.table);
    match p
    case Leaving(_, _) =>
      steps, s' := [Release(i)] + [], Apply(c, s, Release(i));
      ExecuteFirst(c, s, Release(i), []);
    case Deciding(u, _, next) =>
      if next.Some? {
        CreateGrows(c, s.table, u, next.value, random, t);
      }
      var s1 := Apply(c, s, Commit(i, random));
      steps, s' := [Commit(i, random)] + ([Release(i)] + []), Apply(c, s1, Release(i));
      ExecuteFirst(c, s1, Release(i), []);
      ExecuteFirst(c, s, Commit(i, random), [Release(i)] + []);
    case Holding(u, loop) =>
      TurnGrows(c, s.table, u, loop.now, random, t);
      steps, s' := CriticalIsSteps(c, s, i, random);
    case Entering(u, loop) =>
      TurnGrows(c, s.table, u, loop.now, random, t);
      var first, s1 := FreeLock(c, s, i, u);
      var rest;
      rest, s' := CriticalIsSteps(c, Apply(c, s1, Acquire(i)), i, random);
      ExecuteFirst(c, s1, Acquire(i), rest);
      ExecuteAppend(c, s, first, [Acquire(i)] + rest);
      steps := first + ([Acquire(i)] + rest);
  }

  function BatchesLeft(p: Phase): nat {
    if p.Between? then |p.batches| else |p.loop.later|
  }

  function TargetsLeft(p: Phase): nat {
    if p.Between? then 0 else |p.loop.todo|
  }

  function Rank(p: Phase): nat {
    if p.Between? then 0 else if p.Scanning? then 1 else 2
  }

  lemma StillTrap(c: Config, s: State, steps: seq<Step>, t: Target, at: nat, now: int)
    requires Trap(c, s, t, at, now) && Execute(c, s, steps).Some?
    requires Grown(EntriesOf(s.table, t), EntriesOf(Execute(c, s, steps).value.table, t))
    ensures var s' := Execute(c, s, steps).value;
      !AlwaysOneEnabled(c, s', t) || Trap(c, s', t, at, now)
  {
    var s' := Execute(c, s, steps).value;
    if EntriesOf(s'.table, t) == EntriesOf(s.table, t) {
      ExecuteKeepsLocks(c, s, steps);
      ExecuteKeepsTidy(c, s, steps);
    } else {
      TwoNow(c, s', t, EntriesOf(s.table, t), at);
    }
  }

  /** One turn on the way: either it makes a second entry already, or the trap stays set. */
  lemma TurnPasses(c: Config, s: State, i: Instance, t: Target, at: nat, now: int)
    returns (steps: seq<Step>, s': State)
    requires Trap(c, s, t, at, now) && !PhaseOf(s, i).Between?
    requires PhaseOf(s, i).Scanning? ==> PhaseOf(s, i).loop.todo != []
    ensures Execute(c, s, steps) == Some(s')
    ensures var loop := PhaseOf(s, i).loop;
      PhaseOf(s', i) == Scanning(if PhaseOf(s, i).Scanning? then loop.(todo := loop.todo[1..]) else loop)
    ensures !AlwaysOneEnabled(c, s', t) || Trap(c, s', t, at, now)
  {
    var p := PhaseOf(s, i);
    if p.Scanning? {
      var random := FreshRandom(s.table);
      TurnGrows(c, s.table, p.loop.todo[0], p.loop.now, random, t);
      steps, s' := TurnIsSteps(c, s, i, p.loop, random);
    } else {
      steps, s' := TurnEnds(c, s, i, t);
    }
    StillTrap(c, s, steps, t, at, now);
  }

  /** The instance is one step from testing, taking or using the lock of the target. */
  predicate AtHand(p: Phase, t: Target, now: int) {
    if p.Scanning? then p.loop.todo != [] && p.loop.todo[0] == t && p.loop.now == now
    else (p.Entering? || p.Holding?) && p.target == t && p.loop.now == now
  }

  lemma AtHandTrap(c: Config, s: State, i: Instance, t: Target, at: nat, now: int)
    requires Trap(c, s, t, at, now) && AtHand(PhaseOf(s, i), t, now)
    ensures !AlwaysOneEnabled(c, s, t)
  {
    var p := PhaseOf(s, i);
    if p.Scanning? {
      ScanningTrap(c, s, i, t, at);
    } else if p.Entering? {
      EnteringTrap(c, s, i, t, at);
    } else {
      HoldingTrap(c, s, i, t, at);
    }
  }

  lemma LaterOnList(loop: Loop, t: Target, now: int)
    requires InLoop(loop, t, now) && loop.todo != [] && !(loop.todo[0] == t && loop.now == now)
    ensures InLoop(loop.(todo := loop.todo[1..]), t, now)
  {
    assert loop.todo == [loop.todo[0]] + loop.todo[1..];
  }

  /** Whoever may still look at the target can get there, and then creates a second entry. */
  lemma {:induction false} Trapped(c: Config, s: State, i: Instance, t: Target, at: nat, now: int)
    requires Trap(c, s, t, at, now) && ComesTo(PhaseOf(s, i), t, now)
    ensures !AlwaysOneEnabled(c, s, t)
    decreases BatchesLeft(PhaseOf(s, i)), TargetsLeft(PhaseOf(s, i)), Rank(PhaseOf(s, i))
  {
    var p := PhaseOf(s, i);
    if p.Between? {
      LocksKept(c, s, Begin(i, now));
      assert p.batches == [p.batches[0]] + p.batches[1..];
      Trapped(c, Apply(c, s, Begin(i, now)), i, t, at, now);
      EarlierStep(c, s, Begin(i, now), t);
    } else if p.Scanning? && p.loop.todo == [] {
      LocksKept(c, s, Finish(i));
      Trapped(c, Apply(c, s, Finish(i)), i, t, at, now);
      EarlierStep(c, s, Finish(i), t);
    } else if AtHand(p, t, now) {
      AtHandTrap(c, s, i, t, at, now);
    } else {
      if p.Scanning? {
        LaterOnList(p.loop, t, now);
      }
      var steps, s1 := TurnPasses(c, s, i, t, at, now);
      if AlwaysOneEnabled(c, s1, t) {
        Trapped(c, s1, i, t, at, now);
      } else {
        Earlier(c, s, steps, t);
      }
    }
  }

  /** Deleting the entries after entry `m`. */
  lemma {:induction false} Trim(c: Config, s: State, t: Target, m: nat) returns (steps: seq<Step>, s': State)
    requires m < |EntriesOf(s.table, t)|
    ensures Execute(c, s, steps) == Some(s') && s'.phases == s.phases
    ensures EntriesOf(s'.table, t) == EntriesOf(s.table, t)[..m + 1]
    decreases |EntriesOf(s.table, t)|
  {
    var es := EntriesOf(s.table, t);
    if m + 1 == |es| {
      steps, s' := [], s;
    } else {
      var last := Remove(t, |es| - 1);
      var s1 := Apply(c, s, last);
      assert EntriesOf(s1.table, t) == es[..|es| - 1];
      assert es[..|es| - 1][..m + 1] == es[..m + 1];
      var rest;
      rest, s' := Trim(c, s1, t, m);
      ExecuteFirst(c, s, last, rest);
      steps := [last] + rest;
    }
  }

  lemma StaleLater(c: Config, s: State, i: Instance, t: Target, at: nat, now: int, m: nat)
    requires LocksMatch(s) && Tidy(s.table) && at < m && ComesTo(PhaseOf(s, i), t, now)
    requires var es := EntriesOf(s.table, t);
      Adds(c, es, t, at, m, now) && es[at].enabled && OnlyEnabled(es, at)
    ensures !AlwaysOneEnabled(c, s, t)
  {
    var steps, s1 := Trim(c, s, t, m);
    ExecuteKeepsLocks(c, s, steps);
    ExecuteKeepsTidy(c, s, steps);
    assert PhaseOf(s1, i) == PhaseOf(s, i);
    Trapped(c, s1, i, t, at, now);
    Earlier(c, s, steps, t);
  }

  lemma NotContained(c: Config, s: State, t: Target)
    requires LocksMatch(s) && Tidy(s.table) && !Contained(c, s, t)
    ensures !AlwaysOneEnabled(c, s, t)
  {
    var es := EntriesOf(s.table, t);
    var at: nat :| at < |es| && es[at].enabled;
    if k :| 0 <= k < |es| && k != at && es[k].enabled {
      assert Execute(c, s, []) == Some(s) && !OneEnabled(es);
    } else if i :| Decides(s, i, t) && !Clash(c, t, es[at], PhaseOf(s, i).next.value) {
      var steps := DecidedRaces(c, s, i, t, at);
      Refuted(c, s, steps, t);
    } else {
      assert OnlyEnabled(es, at) && NoneDecides(c, s, t, es[at]) && !Guarded(c, s, t, at);
      var i, now, m: nat :| at < m && ComesTo(PhaseOf(s, i), t, now) && Adds(c, es, t, at, m, now);
      StaleLater(c, s, i, t, at, now, m);
    }
  }

  // ---------------------------------------------------------------- main results

  /** Exactly, for any state: two entries of a target are never enabled together, whatever the
      schedulers, beat and deletions do, if none is enabled now, or only one is and no
      instance has decided, or may still decide, to create another beside it. */
  lemma OneEnabledForever(c: Config, s: State, t: Target)
    requires LocksMatch(s) && Tidy(s.table)
    ensures AlwaysOneEnabled(c, s, t) <==> Contained(c, s, t)
  {
    if Contained(c, s, t) {
      forall steps | Execute(c, s, steps).Some?
        ensures OneEnabled(EntriesOf(Execute(c, s, steps).value.table, t))
      {
        ExecuteContained(c, s, steps, t);
      }
    } else {
      NotContained(c, s, t);
    }
  }

  /** No other entry is enabled, nobody has decided to create one, and nobody who still has the
      target on a stale list would take an entry after the new one for stale. */
  ghost predicate Harmless(c: Config, s: State, t: Target, e: Entry) {
    var es := EntriesOf(s.table, t);
    var at := PlaceOf(es, e.name);
    && OnlyEnabled(es, at)
    && (forall i :: !Decides(s, i, t))
    && forall i, now, m: nat :: at < m < |es| && ComesTo(PhaseOf(s, i), t, now) && c.after(t, now).Some? ==>
      now - es[m].clocked <= Cooldown(c)
  }

  lemma UnlockedEntries(s: State, t: Target, e: Entry)
    ensures var es := EntriesOf(s.table, t);
      EntriesOf(AfterUnlocked(s, t, e).table, t) ==
        if PlaceOf(es, e.name) < |es| then es[PlaceOf(es, e.name) := e] else es + [e]
  {}

  lemma UnlockedTidy(table: map<Target, seq<Entry>>, t: Target, e: Entry)
    requires Tidy(table) && e.task.Path? && e.name.Dated?
    ensures Tidy(CreateUnlocked(table, t, e))
  {
    var es, table' := EntriesOf(table, t), CreateUnlocked(table, t, e);
    if PositionOf(es, e.name).None? {
      AppendTidy(table, t, e);
    } else {
      forall u, k: nat | Stands(table', u, k)
        ensures Stands(table, u, k) && (table'[u][k] == e || table'[u][k] == table[u][k])
      {}
    }
  }

  lemma HarmlessIs(c: Config, s: State, t: Target, e: Entry)
    requires e.enabled && e.name.Dated?
    ensures Guarded(c, AfterUnlocked(s, t, e), t, PlaceOf(EntriesOf(s.table, t), e.name)) <==> Harmless(c, s, t, e)
  {
    var s1 := AfterUnlocked(s, t, e);
    var es, es1 := EntriesOf(s.table, t), EntriesOf(s1.table, t);
    var at := PlaceOf(es, e.name);
    UnlockedEntries(s, t, e);
    forall i ensures PhaseOf(s1, i) == PhaseOf(s, i) && (Decides(s1, i, t) <==> Decides(s, i, t)) {}
    assert at < |es1| && es1[at] == e;
    assert forall k :: 0 <= k < |es| && k != at ==> es1[k] == es[k];
    assert OnlyEnabled(es1, at) <==> OnlyEnabled(es, at) by {
      if OnlyEnabled(es1, at) {
        forall k | 0 <= k < |es| && k != at ensures !es[k].enabled {
          assert !es1[k].enabled;
        }
      }
    }
    if Guarded(c, s1, t, at) {
      forall i, now, m: nat | at < m < |es| && ComesTo(PhaseOf(s, i), t, now) && c.after(t, now).Some?
        ensures now - es[m].clocked <= Cooldown(c)
      {
        assert ComesTo(PhaseOf(s1, i), t, now) && !Adds(c, es1, t, at, m, now);
      }
      forall i ensures !Decides(s, i, t) {
        assert !Decides(s1, i, t);
      }
    }
    if Harmless(c, s, t, e) {
      forall i, now, m: nat | at < m && ComesTo(PhaseOf(s1, i), t, now) ensures !Adds(c, es1, t, at, m, now) {
        assert ComesTo(PhaseOf(s, i), t, now);
      }
    }
  }

  /** Exactly: after the worker has created an entry, two entries of the job are never enabled
      together, whatever happens next, if and only if the creation was harmless. The table
      may hold what earlier unlocked creations left. */
  lemma UnlockedCreateExact(c: Config, s: State, t: Target, e: Entry)
    requires LocksMatch(s) && Tidy(s.table) && e.enabled && e.task.Path? && e.name.Dated?
    ensures AlwaysOneEnabled(c, AfterUnlocked(s, t, e), t) <==> Harmless(c, s, t, e)
  {
    var s1 := AfterUnlocked(s, t, e);
    var at := PlaceOf(EntriesOf(s.table, t), e.name);
    var es1 := EntriesOf(s1.table, t);
    UnlockedEntries(s, t, e);
    UnlockedTidy(s.table, t, e);
    forall i ensures PhaseOf(s1, i) == PhaseOf(s, i) {}
    assert LocksMatch(s1);
    OneEnabledForever(c, s1, t);
    HarmlessIs(c, s, t, e);
    assert es1[at] == e;
    assert HasEnabled(es1);
    forall k: nat | Guarded(c, s1, t, k) ensures k == at {}
  }

  lemma UnlockedNames(table: map<Target, seq<Entry>>, t: Target, e: Entry, name: Label)
    requires e.name.Dated? && name.Stamped?
    ensures NameTaken(CreateUnlocked(table, t, e), name) ==> NameTaken(table, name)
  {
    var table': map<Target, seq<Entry>> := CreateUnlocked(table, t, e);
    if NameTaken(table', name) {
      var u: Target, k: nat :| u in table' && k < |table'[u]| && table'[u][k].name == name;
      assert u in table && k < |table[u]| && table[u][k].name == name;
    }
  }

  /** Against a scheduler that has already decided, wherever the entry is put: the scheduler's
      commit makes two, after the deletion of the entry that has its name, if there is one. */
  lemma UnlockedCreateRaces(c: Config, s: State, i: Instance, t: Target, e: Entry) returns (steps: seq<Step>)
    requires Tidy(s.table) && Decides(s, i, t) && e.enabled && e.task.Path? && e.name.Dated?
    ensures TwoAfter(c, AfterUnlocked(s, t, e), steps, t) && 1 <= |steps| <= 2 && steps[|steps| - 1].Commit?
    ensures |steps| == 2 ==>
      steps[0].Remove? && NameTaken(s.table, Stamped(t, PhaseOf(s, i).next.value / 1000))
  {
    var s1 := AfterUnlocked(s, t, e);
    var at := PlaceOf(EntriesOf(s.table, t), e.name);
    UnlockedEntries(s, t, e);
    UnlockedTidy(s.table, t, e);
    assert PhaseOf(s1, i) == PhaseOf(s, i);
    assert EntriesOf(s1.table, t)[at] == e;
    steps := DecidedRaces(c, s1, i, t, at);
    UnlockedNames(s.table, t, e, Stamped(t, PhaseOf(s, i).next.value / 1000));
  }

  /** The new entry is the newest one, or overwrites the newest one. */
  predicate Newest(es: seq<Entry>, name: Label) {
    PositionOf(es, name).Some? ==> PositionOf(es, name).value == |es| - 1
  }

  /** Where only newest entries are enabled, a creation of a newest entry is harmless for ever exactly
      if no instance has decided to create one and, for a new name, no entry is enabled. */
  lemma NewestExact(c: Config, s: State, t: Target, e: Entry)
    requires LocksMatch(s) && Tidy(s.table) && e.enabled && e.task.Path? && e.name.Dated?
    requires NewestOnly(EntriesOf(s.table, t)) && Newest(EntriesOf(s.table, t), e.name)
    ensures AlwaysOneEnabled(c, AfterUnlocked(s, t, e), t) <==>
      && (PositionOf(EntriesOf(s.table, t), e.name).None? ==> !HasEnabled(EntriesOf(s.table, t)))
      && forall i :: !Decides(s, i, t)
  {
    UnlockedCreateExact(c, s, t, e);
  }

  /** Overwriting an older entry leaves one enabled at first exactly if none was. */
  lemma OlderReenabled(s: State, t: Target, e: Entry)
    requires NewestOnly(EntriesOf(s.table, t)) && e.enabled && !Newest(EntriesOf(s.table, t), e.name)
    ensures OneEnabled(EntriesOf(AfterUnlocked(s, t, e).table, t)) <==> !HasEnabled(EntriesOf(s.table, t))
  {
    var es := EntriesOf(s.table, t);
    var es1 := EntriesOf(AfterUnlocked(s, t, e).table, t);
    var k := PositionOf(es, e.name).value;
    if HasEnabled(es) {
      var l :| 0 <= l < |es| && es[l].enabled;
      assert es1[l].enabled && es1[k].enabled;
    }
  }

  // ---------------------------------------------------------------- runs with both creators

  datatype Move = Scheduling(step: Step) | Creating(target: Target, entry: Entry)

  predicate CanMove(s: State, m: Move) {
    match m
    case Scheduling(step) => Enabled(s, step)
    case Creating(_, e) => e.enabled && e.task.Path? && e.name.Dated?
  }

  function Moved(c: Config, s: State, m: Move): State
    requires CanMove(s, m)
  {
    match m
    case Scheduling(step) => Apply(c, s, step)
    case Creating(t, e) => AfterUnlocked(s, t, e)
  }

  function Run(c: Config, s: State, moves: seq<Move>): Option<State>
    decreases |moves|
  {
    if moves == [] then Some(s)
    else if CanMove(s, moves[0]) then Run(c, Moved(c, s, moves[0]), moves[1..])
    else None
  }

  lemma MoveTidy(c: Config, s: State, m: Move)
    requires LocksMatch(s) && Tidy(s.table) && CanMove(s, m)
    ensures LocksMatch(Moved(c, s, m)) && Tidy(Moved(c, s, m).table)
  {
    if m.Scheduling? {
      LocksKept(c, s, m.step);
      TidyKept(c, s, m.step);
    } else {
      forall i ensures PhaseOf(Moved(c, s, m), i) == PhaseOf(s, i) {}
      UnlockedTidy(s.table, m.target, m.entry);
    }
  }

  /** What the exact results ask of a state holds throughout every run, harmless or not. */
  lemma {:induction false} RunTidy(c: Config, s: State, moves: seq<Move>)
    requires LocksMatch(s) && Tidy(s.table) && Run(c, s, moves).Some?
    ensures LocksMatch(Run(c, s, moves).value) && Tidy(Run(c, s, moves).value.table)
    decreases |moves|
  {
    if moves != [] {
      MoveTidy(c, s, moves[0]);
      RunTidy(c, Moved(c, s, moves[0]), moves[1..]);
    }
  }

  /** Each unlocked creation for the target is harmless where it is made. */
  ghost predicate HarmlessRun(c: Config, s: State, moves: seq<Move>, t: Target)
    decreases |moves|
  {
    moves == [] || (
      && CanMove(s, moves[0])
      && (moves[0].Creating? && moves[0].target == t ==> Harmless(c, s, t, moves[0].entry))
      && HarmlessRun(c, Moved(c, s, moves[0]), moves[1..], t))
  }

  lemma MoveContained(c: Config, s: State, m: Move, t: Target)
    requires LocksMatch(s) && Tidy(s.table) && Contained(c, s, t) && CanMove(s, m)
    requires m.Creating? && m.target == t ==> Harmless(c, s, t, m.entry)
    ensures Contained(c, Moved(c, s, m), t)
  {
    var s' := Moved(c, s, m);
    if m.Scheduling? {
      ExecuteFirst(c, s, m.step, []);
      ExecuteContained(c, s, [m.step] + [], t);
    } else {
      forall i ensures PhaseOf(s', i) == PhaseOf(s, i) {}
      if m.target == t {
        HarmlessIs(c, s, t, m.entry);
      } else if HasEnabled(EntriesOf(s.table, t)) {
        var at: nat :| Guarded(c, s, t, at);
        assert EntriesOf(s'.table, t) == EntriesOf(s.table, t);
        assert forall i :: Decides(s', i, t) <==> Decides(s, i, t);
        assert Guarded(c, s', t, at);
      }
    }
  }

  lemma {:induction false} RunContained(c: Config, s: State, moves: seq<Move>, t: Target)
    requires LocksMatch(s) && Tidy(s.table) && Contained(c, s, t)
    requires HarmlessRun(c, s, moves, t)
    ensures Run(c, s, moves).Some? && Contained(c, Run(c, s, moves).value, t)
    decreases |moves|
  {
    if moves != [] {
      MoveTidy(c, s, moves[0]);
      MoveContained(c, s, moves[0], t);
      RunContained(c, Moved(c, s, moves[0]), moves[1..], t);
    }
  }

  /** Over whole runs: schedulers, beat, deletions and any number of harmless unlocked creations
      never bring a target from at most one enabled entry to two. */
  lemma HarmlessRuns(c: Config, table: map<Target, seq<Entry>>, moves: seq<Move>, t: Target)
    requires Tidy(table) && OneEnabled(EntriesOf(table, t)) && HarmlessRun(c, Start(table), moves, t)
    ensures Run(c, Start(table), moves).Some?
    ensures OneEnabled(EntriesOf(Run(c, Start(table), moves).value.table, t))
  {
    var s, es := Start(table), EntriesOf(table, t);
    if at: nat :| at < |es| && es[at].enabled {
      assert Guarded(c, s, t, at);
    }
    RunContained(c, s, moves, t);
  }
}
