/** The in-memory scheduler of a workflow run: a list kept sorted by priority, frequency,
    interval and name, and its partition into priority groups. */
module WorkflowScheduling {
  import opened Wrappers

  datatype Frequency = SECONDLY | MINUTELY | HOURLY | DAILY | WEEKLY | MONTHLY | YEARLY

  function Rank(f: Frequency): nat {
    match f
    case SECONDLY => 1 case MINUTELY => 2 case HOURLY => 3 case DAILY => 4
    case WEEKLY => 5 case MONTHLY => 6 case YEARLY => 7
  }

  datatype Task = Task(
    taskId: string,
    name: string,
    functionName: string,
    queueName: string,
    priority: int,
    frequency: Frequency,
    interval: int,
    ignoreResult: bool,
    delay: int)

  /** Lexicographic order by code point. */
  predicate StringLess(a: string, b: string)
    decreases |a|
  {
    b != [] && (a == [] || a[0] < b[0] || (a[0] == b[0] && StringLess(a[1..], b[1..])))
  }

  /** Lower priority number first, then frequency, interval and name. */
  predicate Less(a: Task, b: Task) {
    if a.priority != b.priority then a.priority < b.priority
    else if a.frequency != b.frequency then Rank(a.frequency) < Rank(b.frequency)
    else if a.interval != b.interval then a.interval < b.interval
    else StringLess(a.name, b.name)
  }

  /** Neither comes before the other. */
  predicate Tied(a: Task, b: Task) {
    a.priority == b.priority && a.frequency == b.frequency && a.interval == b.interval && a.name == b.name
  }

  lemma {:induction false} StringLessTransitive(a: string, b: string, c: string)
    requires StringLess(a, b) && StringLess(b, c)
    ensures StringLess(a, c)
    decreases |a|
  {
    if a != [] && a[0] == b[0] == c[0] {
      StringLessTransitive(a[1..], b[1..], c[1..]);
    }
  }

  lemma {:induction false} StringTrichotomy(a: string, b: string)
    ensures StringLess(a, b) || StringLess(b, a) <==> a != b
    ensures !(StringLess(a, b) && StringLess(b, a))
    decreases |a|
  {
    if a != [] && b != [] {
      StringTrichotomy(a[1..], b[1..]);
      assert a == [a[0]] + a[1..] && b == [b[0]] + b[1..];
    }
  }

  lemma LessTransitive(a: Task, b: Task, c: Task)
    requires Less(a, b) && Less(b, c)
    ensures Less(a, c)
  {
    if StringLess(a.name, b.name) && StringLess(b.name, c.name) {
      StringLessTransitive(a.name, b.name, c.name);
    }
  }

  /** The comparison is a strict weak order whose ties are the tasks with equal keys. */
  lemma Trichotomy(a: Task, b: Task)
    ensures Less(a, b) || Less(b, a) <==> !Tied(a, b)
    ensures !(Less(a, b) && Less(b, a))
  {
    StringTrichotomy(a.name, b.name);
  }

  lemma TiesCompareAlike(a: Task, b: Task, c: Task)
    requires Tied(a, b)
    ensures Less(a, c) <==> Less(b, c)
    ensures Less(c, a) <==> Less(c, b)
  {}

  /** The nominal length of a period, in seconds. */
  function Period(f: Frequency): nat {
    match f
    case SECONDLY => 1 case MINUTELY => 60 case HOURLY => 3600 case DAILY => 86_400
    case WEEKLY => 604_800 case MONTHLY => 2_629_746 case YEARLY => 31_556_952
  }

  /** One string is a proper prefix of the other, or has the smaller character where they first differ. */
  lemma {:induction false} StringLessMeans(a: string, b: string)
    ensures StringLess(a, b) <==>
      exists n: nat :: n <= |a| && n < |b| && a[..n] == b[..n] && (n == |a| || a[n] < b[n])
    decreases |a|
  {
    if a != [] && b != [] {
      StringLessMeans(a[1..], b[1..]);
      if StringLess(a, b) {
        if a[0] < b[0] {
          assert a[..0] == b[..0];
        } else {
          var n: nat :| n <= |a[1..]| && n < |b[1..]| && a[1..][..n] == b[1..][..n]
            && (n == |a[1..]| || a[1..][n] < b[1..][n]);
          assert a[..n + 1] == [a[0]] + a[1..][..n] && b[..n + 1] == [b[0]] + b[1..][..n];
        }
      }
      if n: nat :| n <= |a| && n < |b| && a[..n] == b[..n] && (n == |a| || a[n] < b[n]) {
        if n > 0 {
          assert a[..n][0] == a[0] && b[..n][0] == b[0];
          assert a[1..][..n - 1] == a[..n][1..] && b[1..][..n - 1] == b[..n][1..];
        }
      }
    } else if b != [] {
      assert a[..0] == b[..0];
    }
  }

  /** The order of a run: by priority number, then the shorter period, then the smaller interval,
      then the name. */
  lemma LessMeans(a: Task, b: Task)
    ensures Less(a, b) <==>
      || a.priority < b.priority
      || (a.priority == b.priority && Period(a.frequency) < Period(b.frequency))
      || (a.priority == b.priority && a.frequency == b.frequency && a.interval < b.interval)
      || (a.priority == b.priority && a.frequency == b.frequency && a.interval == b.interval
          && StringLess(a.name, b.name))
  {}

  // ---------------------------------------------------------------- stable sorting

  ghost predicate Sorted(s: seq<Task>) {
    forall i, j :: 0 <= i < j < |s| ==> !Less(s[j], s[i])
  }

  /** The tasks of `s` tied with `t`, in order. */
  ghost function Ties(s: seq<Task>, t: Task): seq<Task> {
    if s == [] then []
    else (if Tied(s[0], t) then [s[0]] else []) + Ties(s[1..], t)
  }

  function Insert(x: Task, s: seq<Task>): seq<Task> {
    if s == [] || !Less(s[0], x) then [x] + s else [s[0]] + Insert(x, s[1..])
  }

  /** What `list.sort` yields: sorted, with ties left in their order. */
  function StableSort(s: seq<Task>): seq<Task> {
    if s == [] then [] else Insert(s[0], StableSort(s[1..]))
  }

  lemma {:induction false} InsertMembers(x: Task, s: seq<Task>)
    ensures |Insert(x, s)| == |s| + 1
    ensures forall t :: t in Insert(x, s) <==> t == x || t in s
    decreases |s|
  {
    if s != [] && Less(s[0], x) {
      InsertMembers(x, s[1..]);
      assert s == [s[0]] + s[1..];
    }
  }

  lemma {:induction false} InsertSorted(x: Task, s: seq<Task>)
    requires Sorted(s)
    ensures Sorted(Insert(x, s))
    decreases |s|
  {
    var r := Insert(x, s);
    if s == [] {
    } else if !Less(s[0], x) {
      forall j | 0 < j < |r| ensures !Less(r[j], x) {
        if Less(s[j - 1], x) {
          Trichotomy(s[0], x);
          Trichotomy(s[j - 1], s[0]);
          if Less(s[0], s[j - 1]) {
            LessTransitive(s[0], s[j - 1], x);
          } else {
            TiesCompareAlike(s[0], s[j - 1], x);
          }
        }
      }
    } else {
      InsertSorted(x, s[1..]);
      InsertMembers(x, s[1..]);
      forall j | 0 < j < |r| ensures !Less(r[j], r[0]) {
        assert r[j] in Insert(x, s[1..]);
        Trichotomy(s[0], x);
      }
    }
  }

  lemma {:induction false} InsertTies(x: Task, s: seq<Task>, t: Task)
    ensures Ties(Insert(x, s), t) == Ties([x] + s, t)
    decreases |s|
  {
    assert ([x] + s)[1..] == s;
    if s != [] && Less(s[0], x) {
      InsertTies(x, s[1..], t);
      assert ([x] + s[1..])[1..] == s[1..];
      assert Insert(x, s)[1..] == Insert(x, s[1..]);
      Trichotomy(s[0], x);
    }
  }

  lemma {:induction false} SortMembers(s: seq<Task>)
    ensures |StableSort(s)| == |s|
    ensures forall t :: t in StableSort(s) <==> t in s
    decreases |s|
  {
    if s != [] {
      SortMembers(s[1..]);
      InsertMembers(s[0], StableSort(s[1..]));
      assert s == [s[0]] + s[1..];
    }
  }

  lemma {:induction false} SortIsSorted(s: seq<Task>)
    ensures Sorted(StableSort(s))
    decreases |s|
  {
    if s != [] {
      SortIsSorted(s[1..]);
      InsertSorted(s[0], StableSort(s[1..]));
    }
  }

  lemma {:induction false} SortKeepsTies(s: seq<Task>, t: Task)
    ensures Ties(StableSort(s), t) == Ties(s, t)
    decreases |s|
  {
    if s != [] {
      SortKeepsTies(s[1..], t);
      InsertTies(s[0], StableSort(s[1..]), t);
      assert ([s[0]] + StableSort(s[1..]))[1..] == StableSort(s[1..]);
    }
  }

  lemma {:induction false} TiesMembers(s: seq<Task>, t: Task, x: Task)
    ensures x in Ties(s, t) <==> x in s && Tied(x, t)
    decreases |s|
  {
    if s != [] {
      TiesMembers(s[1..], t, x);
      assert s == [s[0]] + s[1..];
    }
  }

  lemma HeadIn<T>(s: seq<T>)
    ensures s == [] || s[0] in s
  {}

  lemma HeadLeast(s: seq<Task>, x: Task)
    requires Sorted(s) && x in s
    ensures !Less(x, s[0])
  {
    var k :| 0 <= k < |s| && s[k] == x;
    Trichotomy(x, x);
    assert k == 0 || !Less(s[k], s[0]);
  }

  /** A sorted list is determined by its ties: any stable sort returns the same list. */
  lemma {:induction false} StableSortUnique(a: seq<Task>, b: seq<Task>)
    requires Sorted(a) && Sorted(b)
    requires forall t :: Ties(a, t) == Ties(b, t)
    ensures a == b
    decreases |a|
  {
    if a == [] || b == [] {
      forall x ensures x in a <==> x in b {
        TiesMembers(a, x, x);
        TiesMembers(b, x, x);
        Trichotomy(x, x);
      }
      HeadIn(a);
      HeadIn(b);
    } else {
      var x, y := a[0], b[0];
      TiesMembers(a, x, x); TiesMembers(b, x, x);
      TiesMembers(b, y, y); TiesMembers(a, y, y);
      HeadLeast(a, y);
      HeadLeast(b, x);
      Trichotomy(x, y);
      Trichotomy(x, x);
      assert Ties(a, x) == [x] + Ties(a[1..], x) && Ties(b, x) == [y] + Ties(b[1..], x);
      assert Ties(a, x) == Ties(b, x) && Ties(a, x)[0] == x && Ties(b, x)[0] == y;
      forall t ensures Ties(a[1..], t) == Ties(b[1..], t) {
        var head := if Tied(x, t) then [x] else [];
        assert Ties(a, t) == head + Ties(a[1..], t) && Ties(b, t) == head + Ties(b[1..], t);
        assert Ties(a[1..], t) == Ties(a, t)[|head|..] && Ties(b[1..], t) == Ties(b, t)[|head|..];
      }
      StableSortUnique(a[1..], b[1..]);
      assert a == [x] + a[1..] && b == [y] + b[1..];
    }
  }

  lemma SortOfSorted(s: seq<Task>)
    requires Sorted(s)
    ensures StableSort(s) == s
  {
    SortIsSorted(s);
    forall t ensures Ties(StableSort(s), t) == Ties(s, t) { SortKeepsTies(s, t); }
    StableSortUnique(StableSort(s), s);
  }

  lemma {:induction false} TiesAppend(a: seq<Task>, b: seq<Task>, t: Task)
    ensures Ties(a + b, t) == Ties(a, t) + Ties(b, t)
    decreases |a|
  {
    if a == [] {
      assert a + b == b;
    } else {
      assert (a + b)[1..] == a[1..] + b;
      TiesAppend(a[1..], b, t);
    }
  }

  /** Sorting after every addition is sorting once. */
  lemma SortAppend(s: seq<Task>, t: Task)
    ensures StableSort(StableSort(s) + [t]) == StableSort(s + [t])
  {
    var a, b := StableSort(s) + [t], s + [t];
    SortIsSorted(a);
    SortIsSorted(b);
    forall u ensures Ties(StableSort(a), u) == Ties(StableSort(b), u) {
      SortKeepsTies(a, u);
      SortKeepsTies(b, u);
      SortKeepsTies(s, u);
      TiesAppend(StableSort(s), [t], u);
      TiesAppend(s, [t], u);
    }
    StableSortUnique(StableSort(a), StableSort(b));
  }

  // ---------------------------------------------------------------- groups

  function WithPriority(s: seq<Task>, p: int): seq<Task> {
    if s == [] then []
    else (if s[0].priority == p then [s[0]] else []) + WithPriority(s[1..], p)
  }

  function Concat(groups: seq<seq<Task>>): seq<Task> {
    if groups == [] then [] else groups[0] + Concat(groups[1..])
  }

  ghost predicate Uniform(group: seq<Task>) {
    group != [] && forall t :: t in group ==> t.priority == group[0].priority
  }

  /** A partition of the list into its groups of equal priority, in ascending priority. */
  ghost predicate IsExecutionOrder(tasks: seq<Task>, order: seq<seq<Task>>) {
    && Concat(order) == tasks
    && (forall g :: 0 <= g < |order| ==> Uniform(order[g]))
    && (forall g, h :: 0 <= g < h < |order| ==> order[g][0].priority < order[h][0].priority)
  }

  lemma {:induction false} WithPriorityMembers(s: seq<Task>, p: int)
    ensures forall t :: t in WithPriority(s, p) <==> t in s && t.priority == p
    decreases |s|
  {
    if s != [] {
      WithPriorityMembers(s[1..], p);
      assert s == [s[0]] + s[1..];
    }
  }

  lemma {:induction false} WithoutPriority(s: seq<Task>, p: int)
    requires forall t :: t in s ==> t.priority != p
    ensures WithPriority(s, p) == []
    decreases |s|
  {
    if s != [] {
      assert s[0] in s && s == [s[0]] + s[1..];
      WithoutPriority(s[1..], p);
    }
  }

  lemma {:induction false} WithPriorityAppend(a: seq<Task>, b: seq<Task>, p: int)
    ensures WithPriority(a + b, p) == WithPriority(a, p) + WithPriority(b, p)
    decreases |a|
  {
    if a == [] {
      assert a + b == b;
    } else {
      assert (a + b)[1..] == a[1..] + b;
      WithPriorityAppend(a[1..], b, p);
      var head := if a[0].priority == p then [a[0]] else [];
      assert WithPriority(a + b, p) == head + WithPriority(a[1..] + b, p);
      assert head + (WithPriority(a[1..], p) + WithPriority(b, p)) ==
        head + WithPriority(a[1..], p) + WithPriority(b, p);
    }
  }

  ghost predicate SortedByPriority(s: seq<Task>) {
    forall i, j :: 0 <= i < j < |s| ==> s[i].priority <= s[j].priority
  }

  lemma {:induction false} WithPrioritySorted(s: seq<Task>, p: int)
    requires Sorted(s)
    ensures Sorted(WithPriority(s, p))
    decreases |s|
  {
    if s != [] {
      WithPrioritySorted(s[1..], p);
      WithPriorityMembers(s[1..], p);
      var r := WithPriority(s, p);
      forall j | 0 < j < |r| && s[0].priority == p ensures !Less(r[j], r[0]) {
        assert r[j] in WithPriority(s[1..], p) && r[j] in s[1..];
      }
    }
  }

  /** The tasks above the lowest priority, after taking the lowest group off the front. */
  lemma {:induction false} SplitLowest(s: seq<Task>, p: int)
    requires SortedByPriority(s) && forall t :: t in s ==> p <= t.priority
    ensures var n := |WithPriority(s, p)|;
      && n <= |s| && s[..n] == WithPriority(s, p)
      && forall t :: t in s[n..] ==> p < t.priority
    decreases |s|
  {
    if s != [] {
      if s[0].priority == p {
        SplitLowest(s[1..], p);
        var n := |WithPriority(s[1..], p)|;
        assert s[..n + 1] == [s[0]] + s[1..][..n] && s[n + 1..] == s[1..][n..];
      } else {
        assert s[0] in s;
        forall t | t in s ensures p < t.priority {
          var k :| 0 <= k < |s| && s[k] == t;
          assert k == 0 || s[0].priority <= s[k].priority;
        }
        WithoutPriority(s, p);
      }
    }
  }

  function GroupsOf(s: seq<Task>, priorities: seq<int>): seq<seq<Task>> {
    if priorities == [] then [] else [WithPriority(s, priorities[0])] + GroupsOf(s, priorities[1..])
  }

  lemma {:induction false} GroupsOfAt(s: seq<Task>, ps: seq<int>)
    ensures |GroupsOf(s, ps)| == |ps|
    ensures forall g :: 0 <= g < |ps| ==> GroupsOf(s, ps)[g] == WithPriority(s, ps[g])
    decreases |ps|
  {
    if ps != [] {
      GroupsOfAt(s, ps[1..]);
    }
  }

  lemma {:induction false} GroupsOfAppend(s: seq<Task>, ps: seq<int>, p: int)
    ensures GroupsOf(s, ps + [p]) == GroupsOf(s, ps) + [WithPriority(s, p)]
    decreases |ps|
  {
    if ps == [] {
      assert ([] + [p])[1..] == [];
    } else {
      assert (ps + [p])[1..] == ps[1..] + [p];
      GroupsOfAppend(s, ps[1..], p);
    }
  }

  lemma {:induction false} GroupsOfDrop(a: seq<Task>, b: seq<Task>, ps: seq<int>)
    requires forall p :: p in ps ==> WithPriority(a, p) == []
    ensures GroupsOf(a + b, ps) == GroupsOf(b, ps)
    decreases |ps|
  {
    if ps != [] {
      assert ps[0] in ps && ps == [ps[0]] + ps[1..];
      WithPriorityAppend(a, b, ps[0]);
      assert WithPriority(a + b, ps[0]) == WithPriority(b, ps[0]);
      GroupsOfDrop(a, b, ps[1..]);
    }
  }

  ghost predicate Ascending(ps: seq<int>) {
    forall i, j :: 0 <= i < j < |ps| ==> ps[i] < ps[j]
  }

  lemma LeastIsFirst(ps: seq<int>, q: int)
    requires Ascending(ps) && q in ps
    ensures ps[0] <= q
    ensures q != ps[0] <==> q in ps[1..]
  {
    var i :| 0 <= i < |ps| && ps[i] == q;
    assert i > 0 ==> ps[1..][i - 1] == q;
    forall k | 0 <= k < |ps| - 1 ensures ps[1..][k] > ps[0] {
      assert ps[1..][k] == ps[k + 1];
    }
  }

  /** Taking the lowest group off a sorted list leaves the tasks of the other priorities. */
  lemma LowestFirst(s: seq<Task>, ps: seq<int>)
    requires SortedByPriority(s) && Ascending(ps) && ps != []
    requires forall t :: t in s ==> t.priority in ps
    ensures var n := |WithPriority(s, ps[0])|;
      && n <= |s| && s[..n] == WithPriority(s, ps[0])
      && SortedByPriority(s[n..]) && Ascending(ps[1..])
      && (forall t :: t in s[n..] ==> t.priority in ps[1..])
      && (forall q :: q in ps[1..] ==> WithPriority(s[..n], q) == [])
  {
    var p := ps[0];
    forall t | t in s ensures p <= t.priority {
      LeastIsFirst(ps, t.priority);
    }
    SplitLowest(s, p);
    var n := |WithPriority(s, p)|;
    assert forall i :: 0 <= i < |s| - n ==> s[n..][i] == s[n + i];
    assert forall i :: 0 <= i < |ps| - 1 ==> ps[1..][i] == ps[i + 1];
    forall t | t in s[n..] ensures t.priority in ps[1..] {
      assert t in s;
      LeastIsFirst(ps, t.priority);
    }
    WithPriorityMembers(s, p);
    forall q | q in ps[1..] ensures WithPriority(s[..n], q) == [] {
      assert q in ps;
      LeastIsFirst(ps, q);
      WithoutPriority(s[..n], q);
    }
  }

  /** Grouping a sorted list by all its priorities loses and reorders nothing. */
  lemma {:induction false} GroupingLosesNothing(s: seq<Task>, ps: seq<int>)
    requires SortedByPriority(s) && Ascending(ps)
    requires forall t :: t in s ==> t.priority in ps
    ensures Concat(GroupsOf(s, ps)) == s
    decreases |ps|
  {
    if ps == [] {
      HeadIn(s);
    } else {
      LowestFirst(s, ps);
      var n := |WithPriority(s, ps[0])|;
      assert s == s[..n] + s[n..];
      GroupsOfDrop(s[..n], s[n..], ps[1..]);
      GroupingLosesNothing(s[n..], ps[1..]);
    }
  }

  function Priorities(s: seq<Task>): set<int> {
    set t | t in s :: t.priority
  }

  ghost predicate Grouped(groups: map<int, seq<Task>>, s: seq<Task>) {
    groups.Keys == Priorities(s) && forall p :: p in groups ==> groups[p] == WithPriority(s, p)
  }

  lemma AddToGroups(groups: map<int, seq<Task>>, s: seq<Task>, t: Task)
    requires Grouped(groups, s)
    ensures var p := t.priority;
      Grouped(groups[p := (if p in groups then groups[p] else []) + [t]], s + [t])
  {
    var p := t.priority;
    forall q ensures WithPriority(s + [t], q) == WithPriority(s, q) + if q == p then [t] else [] {
      WithPriorityAppend(s, [t], q);
    }
    if p !in groups {
      WithoutPriority(s, p);
    }
    assert Priorities(s + [t]) == Priorities(s) + {p};
  }

  lemma GroupsAreSorted(groups: map<int, seq<Task>>, s: seq<Task>, p: int)
    requires Sorted(s) && Grouped(groups, s) && p in groups
    ensures groups[p := StableSort(groups[p])] == groups
  {
    WithPrioritySorted(s, p);
    SortOfSorted(WithPriority(s, p));
  }

  lemma GroupsAreOrder(s: seq<Task>, ps: seq<int>)
    requires Sorted(s) && Ascending(ps) && forall p :: p in ps <==> p in Priorities(s)
    ensures IsExecutionOrder(s, GroupsOf(s, ps))
  {
    var order := GroupsOf(s, ps);
    GroupingLosesNothing(s, ps);
    GroupsOfAt(s, ps);
    forall g | 0 <= g < |order| ensures Uniform(order[g]) && order[g][0].priority == ps[g] {
      WithPriorityMembers(s, ps[g]);
      assert ps[g] in Priorities(s);
      var t :| t in s && t.priority == ps[g];
      assert t in order[g];
      HeadIn(order[g]);
    }
  }

  lemma AscendingAppend(ps: seq<int>, p: int)
    requires Ascending(ps) && forall q :: q in ps ==> q < p
    ensures Ascending(ps + [p])
  {
    forall i | 0 <= i < |ps| ensures ps[i] < p { assert ps[i] in ps; }
  }

  lemma {:induction false} ConcatMembers(groups: seq<seq<Task>>, g: nat, t: Task)
    requires g < |groups| && t in groups[g]
    ensures t in Concat(groups)
    decreases |groups|
  {
    if g > 0 {
      ConcatMembers(groups[1..], g - 1, t);
    }
  }

  lemma {:induction false} ConcatMembersInverse(groups: seq<seq<Task>>, t: Task) returns (g: nat)
    requires t in Concat(groups)
    ensures g < |groups| && t in groups[g]
    decreases |groups|
  {
    if t in groups[0] {
      g := 0;
    } else {
      var h := ConcatMembersInverse(groups[1..], t);
      g := h + 1;
    }
  }

  /** The first group of an execution order is exactly the tasks of the lowest priority. */
  lemma FirstGroup(tasks: seq<Task>, order: seq<seq<Task>>, p: int)
    requires IsExecutionOrder(tasks, order) && order != [] && p == order[0][0].priority
    ensures forall t :: t in tasks ==> p <= t.priority
    ensures order[0] == WithPriority(tasks, p)
    ensures forall t :: t in Concat(order[1..]) ==> p < t.priority
  {
    var rest := Concat(order[1..]);
    assert Uniform(order[0]);
    forall t | t in rest ensures p < t.priority {
      var g := ConcatMembersInverse(order[1..], t);
      assert order[1..][g] == order[g + 1] && Uniform(order[g + 1]);
    }
    WithPriorityAppend(order[0], rest, p);
    WithoutPriority(rest, p);
    UniformFilter(order[0], p);
  }

  lemma {:induction false} UniformFilter(s: seq<Task>, p: int)
    requires forall t :: t in s ==> t.priority == p
    ensures WithPriority(s, p) == s
    decreases |s|
  {
    if s != [] {
      assert s[0] in s && s == [s[0]] + s[1..];
      UniformFilter(s[1..], p);
    }
  }

  lemma NoGroups(tasks: seq<Task>, order: seq<seq<Task>>)
    requires IsExecutionOrder(tasks, order)
    ensures order == [] <==> tasks == []
  {
    if order != [] {
      assert Uniform(order[0]);
    }
  }

  /** An execution order is unique. */
  lemma {:induction false} ExecutionOrderUnique(tasks: seq<Task>, a: seq<seq<Task>>, b: seq<seq<Task>>)
    requires IsExecutionOrder(tasks, a) && IsExecutionOrder(tasks, b)
    ensures a == b
    decreases |a|
  {
    NoGroups(tasks, a);
    NoGroups(tasks, b);
    if a != [] {
      assert Uniform(a[0]) && Uniform(b[0]);
      var p, q := a[0][0].priority, b[0][0].priority;
      FirstGroup(tasks, a, p);
      FirstGroup(tasks, b, q);
      ConcatMembers(a, 0, a[0][0]);
      ConcatMembers(b, 0, b[0][0]);
      assert p == q;
      var rest := tasks[|a[0]|..];
      assert Concat(a[1..]) == rest && Concat(b[1..]) == rest;
      ExecutionOrderUnique(rest, a[1..], b[1..]);
      assert a == [a[0]] + a[1..] && b == [b[0]] + b[1..];
    }
  }

  // ---------------------------------------------------------------- operations

  ghost predicate DistinctIds(s: seq<Task>) {
    forall i, j :: 0 <= i < j < |s| ==> s[i].taskId != s[j].taskId
  }

  function Ids(s: seq<Task>): set<string> {
    set t | t in s :: t.taskId
  }

  /** Position of the first task with an id, or the length. */
  function IndexOf(s: seq<Task>, id: string): (i: nat)
    ensures i <= |s|
    ensures i < |s| ==> s[i].taskId == id
    ensures forall j :: 0 <= j < i ==> s[j].taskId != id
  {
    if s == [] || s[0].taskId == id then 0 else 1 + IndexOf(s[1..], id)
  }

  /** `validate` is add_task's parameter of that name. */
  datatype Op = Add(task: Task, validate: bool) | Remove(id: string) | SetPriority(id: string, priority: int) | Clear

  function Perform(s: seq<Task>, op: Op): seq<Task> {
    match op
    case Add(task, _) => StableSort(s + [task])
    case Remove(id) => var i := IndexOf(s, id); if i < |s| then s[..i] + s[i + 1..] else s
    case SetPriority(id, p) =>
      var i := IndexOf(s, id); if i < |s| then StableSort(s[i := s[i].(priority := p)]) else s
    case Clear => []
  }

  datatype Limits = Limits(validateInterval: bool, maxInterval: int, maxPriority: int)

  predicate IntervalAllowed(t: Task, validate: bool, l: Limits) {
    0 < t.interval && (validate && l.validateInterval ==> t.interval <= l.maxInterval)
  }

  predicate PriorityAllowed(t: Task, validate: bool, l: Limits) {
    0 < t.priority && (validate ==> t.priority <= l.maxPriority)
  }

  predicate Allowed(t: Task, validate: bool, l: Limits) {
    IntervalAllowed(t, validate, l) && PriorityAllowed(t, validate, l)
  }

  /** A call: adding a task that is not allowed raises and changes nothing. */
  function Attempt(s: seq<Task>, op: Op, l: Limits): seq<Task> {
    if op.Add? && !Allowed(op.task, op.validate, l) then s else Perform(s, op)
  }

  function AttemptAll(s: seq<Task>, ops: seq<Op>, l: Limits): seq<Task>
    decreases |ops|
  {
    if ops == [] then s else AttemptAll(Attempt(s, ops[0], l), ops[1..], l)
  }

  lemma {:induction false} InsertDistinct(x: Task, s: seq<Task>)
    requires DistinctIds([x] + s)
    ensures DistinctIds(Insert(x, s))
    decreases |s|
  {
    if s != [] && Less(s[0], x) {
      var r := Insert(x, s);
      assert DistinctIds([x] + s[1..]) by {
        forall i, j | 0 <= i < j < |[x] + s[1..]| ensures ([x] + s[1..])[i].taskId != ([x] + s[1..])[j].taskId {
          assert ([x] + s[1..])[j] == ([x] + s)[j + 1];
          assert i > 0 ==> ([x] + s[1..])[i] == ([x] + s)[i + 1];
          assert ([x] + s)[0] == x;
        }
      }
      InsertDistinct(x, s[1..]);
      InsertMembers(x, s[1..]);
      forall j | 0 < j < |r| ensures r[0].taskId != r[j].taskId {
        assert r[j] in Insert(x, s[1..]);
        var all := [x] + s;
        if r[j] == x {
          assert all[0] == x && all[1] == s[0];
        } else {
          var k :| 0 <= k < |s[1..]| && s[1..][k] == r[j];
          assert all[1] == s[0] && all[k + 2] == r[j];
        }
      }
    }
  }

  lemma {:induction false} SortDistinct(s: seq<Task>)
    requires DistinctIds(s)
    ensures DistinctIds(StableSort(s))
    decreases |s|
  {
    if s != [] {
      SortDistinct(s[1..]);
      SortMembers(s[1..]);
      var r := StableSort(s[1..]);
      forall j | 0 <= j < |r| ensures r[j].taskId != s[0].taskId {
        assert r[j] in s[1..];
        var k :| 0 <= k < |s[1..]| && s[1..][k] == r[j];
        assert s[k + 1] == r[j];
      }
      InsertDistinct(s[0], r);
    }
  }

  lemma IdsWithout(s: seq<Task>, i: nat)
    requires DistinctIds(s) && i < |s|
    ensures Ids(s[..i] + s[i + 1..]) == Ids(s) - {s[i].taskId} && s[i].taskId in Ids(s)
  {
    var r := s[..i] + s[i + 1..];
    assert s[i] in s;
    forall t | t in s && t != s[i] ensures t in r {
      var k :| 0 <= k < |s| && s[k] == t;
      assert r[if k < i then k else k - 1] == t;
    }
    forall t | t in r ensures t in s && t.taskId != s[i].taskId {
      var k :| 0 <= k < |r| && r[k] == t;
      assert t == s[if k < i then k else k + 1];
    }
  }

  lemma IdsWithPriority(s: seq<Task>, i: nat, p: int)
    requires i < |s|
    ensures Ids(s[i := s[i].(priority := p)]) == Ids(s) && s[i].taskId in Ids(s)
  {
    var r := s[i := s[i].(priority := p)];
    forall k | 0 <= k < |s| ensures s[k].taskId in Ids(r) && r[k].taskId in Ids(s) {
      assert r[k] in r && s[k] in s && r[k].taskId == s[k].taskId;
    }
  }

  ghost predicate Good(s: seq<Task>) {
    Sorted(s) && DistinctIds(s)
  }

  lemma AddedDistinct(s: seq<Task>, t: Task)
    requires DistinctIds(s) && t.taskId !in Ids(s)
    ensures DistinctIds(s + [t])
  {
    forall i | 0 <= i < |s| ensures s[i].taskId != t.taskId {
      assert s[i] in s;
    }
  }

  lemma RemovedGood(s: seq<Task>, i: nat)
    requires Good(s) && i < |s|
    ensures Good(s[..i] + s[i + 1..])
  {
    var r := s[..i] + s[i + 1..];
    assert forall j :: 0 <= j < |r| ==> r[j] == s[if j < i then j else j + 1];
  }

  lemma PerformKeepsGood(s: seq<Task>, op: Op)
    requires Good(s) && (op.Add? ==> op.task.taskId !in Ids(s))
    ensures Good(Perform(s, op))
  {
    match op
    case Add(task, _) =>
      AddedDistinct(s, task);
      SortIsSorted(s + [task]);
      SortDistinct(s + [task]);
    case SetPriority(id, p) =>
      var i := IndexOf(s, id);
      if i < |s| {
        var s' := s[i := s[i].(priority := p)];
        SortIsSorted(s');
        assert forall j :: 0 <= j < |s| ==> s'[j].taskId == s[j].taskId;
        SortDistinct(s');
      }
    case Remove(id) =>
      var i := IndexOf(s, id);
      if i < |s| {
        RemovedGood(s, i);
      }
    case Clear =>
  }

  // ---------------------------------------------------------------- the two copies

  /** A task with its interval forgotten: one copy of the class always takes 1. */
  function Strip(t: Task): Task {
    t.(interval := 1)
  }

  function Stripped(s: seq<Task>): set<Task> {
    set t | t in s :: Strip(t)
  }

  function GroupIds(s: seq<Task>, p: int): set<string> {
    set t | t in s && t.priority == p :: t.taskId
  }

  lemma SortStripped(s: seq<Task>)
    ensures Stripped(StableSort(s)) == Stripped(s)
  {
    SortMembers(s);
  }

  /** The position of an id names the same stripped task in two agreeing lists. */
  lemma SameTaskById(sa: seq<Task>, sb: seq<Task>, id: string)
    requires DistinctIds(sb) && Stripped(sa) == Stripped(sb) && IndexOf(sa, id) < |sa|
    ensures IndexOf(sb, id) < |sb| && Strip(sa[IndexOf(sa, id)]) == Strip(sb[IndexOf(sb, id)])
  {
    var i, j := IndexOf(sa, id), IndexOf(sb, id);
    assert Strip(sa[i]) in Stripped(sb);
    var t :| t in sb && Strip(t) == Strip(sa[i]);
    var k :| 0 <= k < |sb| && sb[k] == t;
    assert k == j;
  }

  lemma StrippedWithout(s: seq<Task>, i: nat)
    requires DistinctIds(s) && i < |s|
    ensures Stripped(s[..i] + s[i + 1..]) == Stripped(s) - {Strip(s[i])}
  {
    var r := s[..i] + s[i + 1..];
    forall t | t in s && t != s[i] ensures t in r {
      var k :| 0 <= k < |s| && s[k] == t;
      assert r[if k < i then k else k - 1] == t;
    }
    forall t | t in r ensures t in s && t.taskId != s[i].taskId {
      var k :| 0 <= k < |r| && r[k] == t;
      assert t == s[if k < i then k else k + 1];
    }
  }

  lemma StrippedAdd(s: seq<Task>, t: Task)
    ensures Stripped(s + [t]) == Stripped(s) + {Strip(t)}
  {
    assert t in s + [t];
    assert forall u :: u in s + [t] <==> u in s || u == t;
  }

  lemma StrippedWith(s: seq<Task>, i: nat, t: Task)
    requires DistinctIds(s) && i < |s| && t.taskId == s[i].taskId
    ensures Stripped(s[i := t]) == Stripped(s) - {Strip(s[i])} + {Strip(t)}
  {
    var s' := s[i := t];
    assert s'[i] == t;
    forall u | u in s && u != s[i] ensures u in s' {
      var k :| 0 <= k < |s| && s[k] == u;
      assert s'[k] == u;
    }
    forall u | u in s' && u != t ensures u in s && u.taskId != s[i].taskId {
      var k :| 0 <= k < |s'| && s'[k] == u;
      assert s[k] == u;
    }
  }

  /** An operation as the worker's copy sees it: it reads every interval as 1. */
  function WorkerOp(op: Op): Op {
    if op.Add? then op.(task := Strip(op.task)) else op
  }

  function WorkerOps(ops: seq<Op>): (seen: seq<Op>)
    ensures |seen| == |ops|
  {
    seq(|ops|, i requires 0 <= i < |ops| => WorkerOp(ops[i]))
  }

  lemma SameFound(sa: seq<Task>, sb: seq<Task>, id: string)
    requires DistinctIds(sa) && DistinctIds(sb) && Stripped(sa) == Stripped(sb)
    ensures IndexOf(sa, id) < |sa| <==> IndexOf(sb, id) < |sb|
    ensures IndexOf(sa, id) < |sa| ==> Strip(sa[IndexOf(sa, id)]) == Strip(sb[IndexOf(sb, id)])
  {
    if IndexOf(sa, id) < |sa| { SameTaskById(sa, sb, id); }
    if IndexOf(sb, id) < |sb| { SameTaskById(sb, sa, id); }
  }

  lemma RemoveAgree(sa: seq<Task>, sb: seq<Task>, id: string)
    requires DistinctIds(sa) && DistinctIds(sb) && Stripped(sa) == Stripped(sb)
    ensures Stripped(Perform(sa, Remove(id))) == Stripped(Perform(sb, Remove(id)))
  {
    SameFound(sa, sb, id);
    var i, j := IndexOf(sa, id), IndexOf(sb, id);
    if i < |sa| {
      assert Stripped(Perform(sa, Remove(id))) == Stripped(sa) - {Strip(sa[i])} by { StrippedWithout(sa, i); }
      assert Stripped(Perform(sb, Remove(id))) == Stripped(sb) - {Strip(sb[j])} by { StrippedWithout(sb, j); }
    }
  }

  lemma SetPriorityAgree(sa: seq<Task>, sb: seq<Task>, id: string, p: int)
    requires DistinctIds(sa) && DistinctIds(sb) && Stripped(sa) == Stripped(sb)
    ensures Stripped(Perform(sa, SetPriority(id, p))) == Stripped(Perform(sb, SetPriority(id, p)))
  {
    SameFound(sa, sb, id);
    var i, j := IndexOf(sa, id), IndexOf(sb, id);
    if i < |sa| {
      StrippedWith(sa, i, sa[i].(priority := p));
      StrippedWith(sb, j, sb[j].(priority := p));
      SortStripped(sa[i := sa[i].(priority := p)]);
      SortStripped(sb[j := sb[j].(priority := p)]);
      assert Strip(sa[i].(priority := p)) == Strip(sb[j].(priority := p));
    }
  }

  lemma PerformAgree(sa: seq<Task>, sb: seq<Task>, op: Op)
    requires DistinctIds(sa) && DistinctIds(sb) && Stripped(sa) == Stripped(sb)
    ensures Stripped(Perform(sa, WorkerOp(op))) == Stripped(Perform(sb, op))
  {
    match op
    case Add(task, _) =>
      SortStripped(sa + [Strip(task)]);
      SortStripped(sb + [task]);
      StrippedAdd(sa, Strip(task));
      StrippedAdd(sb, task);
    case Remove(id) => RemoveAgree(sa, sb, id);
    case SetPriority(id, p) => SetPriorityAgree(sa, sb, id, p);
    case Clear =>
  }

  /** The ids added are drawn anew. */
  ghost predicate FreshAdds(sa: seq<Task>, sb: seq<Task>, ops: seq<Op>, l: Limits)
    decreases |ops|
  {
    ops != [] ==>
      && (ops[0].Add? ==> ops[0].task.taskId !in Ids(sa) + Ids(sb))
      && FreshAdds(Attempt(sa, WorkerOp(ops[0]), l), Attempt(sb, ops[0], l), ops[1..], l)
  }

  /** No task is refused for its interval alone. */
  ghost predicate IntervalsAllowed(ops: seq<Op>, l: Limits) {
    forall i :: 0 <= i < |ops| && ops[i].Add? && PriorityAllowed(ops[i].task, ops[i].validate, l) ==>
      IntervalAllowed(ops[i].task, ops[i].validate, l)
  }

  lemma SameGroups(sa: seq<Task>, sb: seq<Task>, p: int)
    requires Stripped(sa) == Stripped(sb)
    ensures GroupIds(sa, p) == GroupIds(sb, p)
  {
    forall id | id in GroupIds(sa, p) ensures id in GroupIds(sb, p) {
      var t :| t in sa && t.priority == p && t.taskId == id;
      assert Strip(t) in Stripped(sb);
    }
    forall id | id in GroupIds(sb, p) ensures id in GroupIds(sa, p) {
      var t :| t in sb && t.priority == p && t.taskId == id;
      assert Strip(t) in Stripped(sa);
    }
  }

  /** The two copies of the class, given the same calls, put the same tasks into the same
      priority groups, if the copy that reads the intervals refuses none for its interval. */
  lemma {:induction false} CopiesAgree(sa: seq<Task>, sb: seq<Task>, ops: seq<Op>, l: Limits, p: int)
    requires 1 <= l.maxInterval && Good(sa) && Good(sb) && Stripped(sa) == Stripped(sb)
    requires FreshAdds(sa, sb, ops, l) && IntervalsAllowed(ops, l)
    ensures GroupIds(AttemptAll(sa, WorkerOps(ops), l), p) == GroupIds(AttemptAll(sb, ops, l), p)
    decreases |ops|
  {
    if ops == [] {
      SameGroups(sa, sb, p);
    } else {
      var op := ops[0];
      if !op.Add? || Allowed(op.task, op.validate, l) {
        PerformKeepsGood(sa, WorkerOp(op));
        PerformKeepsGood(sb, op);
        PerformAgree(sa, sb, op);
      }
      assert WorkerOps(ops)[1..] == WorkerOps(ops[1..]);
      assert forall i :: 0 <= i < |ops| - 1 ==> ops[1..][i] == ops[i + 1];
      CopiesAgree(Attempt(sa, WorkerOp(op), l), Attempt(sb, op, l), ops[1..], l, p);
    }
  }

  ghost predicate OnlyAdds(ops: seq<Op>) {
    && (forall i :: 0 <= i < |ops| ==> ops[i].Add?)
    && forall i, j :: 0 <= i < j < |ops| ==> ops[i].Add? && ops[j].Add? && ops[i].task.taskId != ops[j].task.taskId
  }

  ghost predicate AcceptedAt(ops: seq<Op>, l: Limits, i: int, id: string) {
    0 <= i < |ops| && ops[i].Add? && Allowed(ops[i].task, ops[i].validate, l) && ops[i].task.taskId == id
  }

  /** After additions only, the ids are the old ones and those of the accepted tasks. */
  lemma {:induction false} IdsAdded(s: seq<Task>, ops: seq<Op>, l: Limits, id: string)
    requires forall i :: 0 <= i < |ops| ==> ops[i].Add?
    ensures id in Ids(AttemptAll(s, ops, l)) <==> id in Ids(s) || exists i :: AcceptedAt(ops, l, i, id)
    decreases |ops|
  {
    if ops != [] {
      var s1 := Attempt(s, ops[0], l);
      IdsAdded(s1, ops[1..], l, id);
      SortMembers(s + [ops[0].task]);
      assert Ids(s + [ops[0].task]) == Ids(s) + {ops[0].task.taskId};
      assert id in Ids(s1) <==> id in Ids(s) || AcceptedAt(ops, l, 0, id);
      if i :| AcceptedAt(ops[1..], l, i, id) {
        assert AcceptedAt(ops, l, i + 1, id);
      }
      if i :| AcceptedAt(ops, l, i, id) {
        assert i == 0 || AcceptedAt(ops[1..], l, i - 1, id);
      }
    }
  }

  lemma GroupsHaveIds(s: seq<Task>, id: string)
    ensures id in Ids(s) <==> exists p :: id in GroupIds(s, p)
  {
    if id in Ids(s) {
      var t :| t in s && t.taskId == id;
      assert id in GroupIds(s, t.priority);
    }
  }

  lemma {:induction false} FreshIfDistinct(sa: seq<Task>, sb: seq<Task>, ops: seq<Op>, l: Limits)
    requires OnlyAdds(ops) && forall i :: 0 <= i < |ops| ==> ops[i].task.taskId !in Ids(sa) + Ids(sb)
    ensures FreshAdds(sa, sb, ops, l)
    decreases |ops|
  {
    if ops != [] {
      var op := ops[0];
      assert forall i :: 0 <= i < |ops| - 1 ==> ops[1..][i] == ops[i + 1];
      forall i | 0 <= i < |ops| - 1
        ensures ops[1..][i].task.taskId !in Ids(Attempt(sa, WorkerOp(op), l)) + Ids(Attempt(sb, op, l))
      {
        SortMembers(sa + [Strip(op.task)]);
        SortMembers(sb + [op.task]);
        assert ops[i + 1].task.taskId != op.task.taskId;
      }
      FreshIfDistinct(Attempt(sa, WorkerOp(op), l), Attempt(sb, op, l), ops[1..], l);
    }
  }

  /** Both callers only add tasks. Then the copies have the same groups exactly if no task is
      refused for its interval alone. */
  lemma AddsAgreeExactly(sa: seq<Task>, sb: seq<Task>, ops: seq<Op>, l: Limits)
    requires 1 <= l.maxInterval && Good(sa) && Good(sb) && Stripped(sa) == Stripped(sb)
    requires OnlyAdds(ops) && forall i :: 0 <= i < |ops| ==> ops[i].task.taskId !in Ids(sa) + Ids(sb)
    ensures (forall p :: GroupIds(AttemptAll(sa, WorkerOps(ops), l), p) == GroupIds(AttemptAll(sb, ops, l), p))
      <==> IntervalsAllowed(ops, l)
  {
    if IntervalsAllowed(ops, l) {
      FreshIfDistinct(sa, sb, ops, l);
      forall p ensures GroupIds(AttemptAll(sa, WorkerOps(ops), l), p) == GroupIds(AttemptAll(sb, ops, l), p) {
        CopiesAgree(sa, sb, ops, l, p);
      }
    } else {
      var i :| 0 <= i < |ops| && ops[i].Add?
        && PriorityAllowed(ops[i].task, ops[i].validate, l) && !IntervalAllowed(ops[i].task, ops[i].validate, l);
      var id := ops[i].task.taskId;
      var a, b := AttemptAll(sa, WorkerOps(ops), l), AttemptAll(sb, ops, l);
      IdsAdded(sa, WorkerOps(ops), l, id);
      IdsAdded(sb, ops, l, id);
      assert AcceptedAt(WorkerOps(ops), l, i, id);
      GroupsHaveIds(a, id);
      GroupsHaveIds(b, id);
      var p :| id in GroupIds(a, p);
      assert id !in GroupIds(b, p);
    }
  }

  lemma OthersStay(s: seq<Task>, i: nat)
    requires DistinctIds(s) && i < |s|
    ensures forall t :: t in s[..i] + s[i + 1..] <==> t in s && t.taskId != s[i].taskId
  {
    var r := s[..i] + s[i + 1..];
    forall t | t in s && t.taskId != s[i].taskId ensures t in r {
      var k :| 0 <= k < |s| && s[k] == t;
      assert r[if k < i then k else k - 1] == t;
    }
    forall t | t in r ensures t in s && t.taskId != s[i].taskId {
      var k :| 0 <= k < |r| && r[k] == t;
      assert t == s[if k < i then k else k + 1];
    }
  }

  /** A task of the list, with the priority if it has the id. */
  ghost predicate Reprioritized(t: Task, s: seq<Task>, id: string, p: int) {
    exists o :: o in s && t == if o.taskId == id then o.(priority := p) else o
  }

  lemma OnePriority(s: seq<Task>, i: nat, p: int)
    requires DistinctIds(s) && i < |s|
    ensures forall t :: t in s[i := s[i].(priority := p)] <==> Reprioritized(t, s, s[i].taskId, p)
  {
    var r := s[i := s[i].(priority := p)];
    forall o | o in s ensures (if o.taskId == s[i].taskId then o.(priority := p) else o) in r {
      var k :| 0 <= k < |s| && s[k] == o;
      assert r[k] in r;
    }
    forall t | t in r ensures Reprioritized(t, s, s[i].taskId, p) {
      var k :| 0 <= k < |r| && r[k] == t;
      assert s[k] in s;
    }
  }

  // ---------------------------------------------------------------- the class

  datatype AddError = BadInterval | BadPriority | IntervalTooLarge | PriorityTooHigh

  class WorkflowScheduler {
    var tasks: seq<Task>
    var taskIds: set<string>
    var validateInterval: bool
    var maxInterval: int
    var maxPriority: int

    function Rules(): Limits
      reads this
    {
      Limits(validateInterval, maxInterval, maxPriority)
    }

    ghost predicate Valid()
      reads this
    {
      Good(tasks) && taskIds == Ids(tasks)
    }

    constructor ()
      ensures Valid() && tasks == []
      ensures validateInterval && maxInterval == 1000 && maxPriority == 100
    {
      tasks, taskIds := [], {};
      validateInterval, maxInterval, maxPriority := true, 1000, 100;
    }

    /** `task.taskId` is the id drawn by the loop that skips ids already taken. */
    method AddTask(task: Task, validate: bool) returns (r: Result<string, AddError>)
      requires Valid() && task.taskId !in taskIds
      modifies this`tasks, this`taskIds
      ensures Valid()
      ensures r.Ok? <==> Allowed(task, validate, Rules())
      ensures tasks == Attempt(old(tasks), Add(task, validate), Rules())
      ensures r.Ok? <==>
        && 0 < task.interval && 0 < task.priority
        && (validate ==> task.priority <= maxPriority && (validateInterval ==> task.interval <= maxInterval))
      ensures r == Err(BadInterval) <==> task.interval <= 0
      ensures r.Ok? ==> forall t :: t in tasks <==> t in old(tasks) || t == task
      ensures r.Ok? ==> forall t :: Ties(tasks, t) == Ties(old(tasks) + [task], t)
      ensures r.Err? ==> tasks == old(tasks)
      ensures r.Ok? ==> r.value == task.taskId
      ensures r.Ok? ==> taskIds == old(taskIds) + {task.taskId}
      ensures r.Err? ==> taskIds == old(taskIds)
    {
      if task.interval <= 0 {
        return Err(BadInterval);
      }
      if task.priority <= 0 {
        return Err(BadPriority);
      }
      if validate {
        if validateInterval && task.interval > maxInterval {
          return Err(IntervalTooLarge);
        }
        if task.priority > maxPriority {
          return Err(PriorityTooHigh);
        }
      }
      PerformKeepsGood(tasks, Add(task, validate));
      SortMembers(tasks + [task]);
      forall t ensures Ties(StableSort(tasks + [task]), t) == Ties(tasks + [task], t) {
        SortKeepsTies(tasks + [task], t);
      }
      tasks := tasks + [task];
      taskIds := taskIds + {task.taskId};
      tasks := StableSort(tasks);
      r := Ok(task.taskId);
    }

    method RemoveTask(id: string) returns (found: bool)
      requires Valid()
      modifies this`tasks, this`taskIds
      ensures Valid() && tasks == Perform(old(tasks), Remove(id))
      ensures found <==> id in old(taskIds)
      ensures forall t :: t in tasks <==> t in old(tasks) && t.taskId != id
    {
      PerformKeepsGood(tasks, Remove(id));
      for i := 0 to |tasks|
        invariant tasks == old(tasks) && taskIds == old(taskIds)
        invariant forall j :: 0 <= j < i ==> tasks[j].taskId != id
      {
        if tasks[i].taskId == id {
          assert IndexOf(tasks, id) == i;
          IdsWithout(tasks, i);
          OthersStay(tasks, i);
          tasks := tasks[..i] + tasks[i + 1..];
          taskIds := taskIds - {id};
          return true;
        }
      }
      return false;
    }

    method UpdateTaskPriority(id: string, priority: int) returns (found: bool)
      requires Valid()
      modifies this`tasks
      ensures Valid() && tasks == Perform(old(tasks), SetPriority(id, priority))
      ensures found <==> id in taskIds
      ensures forall t :: t in tasks <==> Reprioritized(t, old(tasks), id, priority)
    {
      PerformKeepsGood(tasks, SetPriority(id, priority));
      for i := 0 to |tasks|
        invariant tasks == old(tasks)
        invariant forall j :: 0 <= j < i ==> tasks[j].taskId != id
      {
        if tasks[i].taskId == id {
          IdsWithPriority(tasks, i, priority);
          OnePriority(tasks, i, priority);
          tasks := tasks[i := tasks[i].(priority := priority)];
          SortMembers(tasks);
          tasks := StableSort(tasks);
          return true;
        }
      }
      return false;
    }

    method ClearAll()
      modifies this`tasks, this`taskIds
      ensures Valid() && tasks == Perform(old(tasks), Clear) && tasks == [] && taskIds == {}
    {
      tasks, taskIds := [], {};
    }

    /** A dictionary filled in one pass, then each of its lists sorted. */
    method GetPriorityGroups() returns (groups: map<int, seq<Task>>)
      requires Valid()
      ensures Grouped(groups, tasks)
    {
      groups := map[];
      for i := 0 to |tasks|
        invariant Grouped(groups, tasks[..i])
      {
        var p := tasks[i].priority;
        AddToGroups(groups, tasks[..i], tasks[i]);
        assert tasks[..i + 1] == tasks[..i] + [tasks[i]];
        groups := groups[p := (if p in groups then groups[p] else []) + [tasks[i]]];
      }
      assert tasks[..|tasks|] == tasks;
      ghost var filled := groups;
      var left := groups.Keys;
      while left != {}
        invariant left <= groups.Keys && groups == filled
        decreases |left|
      {
        var p :| p in left;
        left := left - {p};
        GroupsAreSorted(groups, tasks, p);
        groups := groups[p := StableSort(groups[p])];
      }
    }

    method GetHighestPriorityTasks() returns (highest: seq<Task>)
      requires Valid()
      ensures forall order :: IsExecutionOrder(tasks, order) ==> highest == if order == [] then [] else order[0]
    {
      if tasks == [] {
        forall order: seq<seq<Task>> | IsExecutionOrder(tasks, order) ensures order == [] {
          NoGroups(tasks, order);
        }
        return [];
      }
      var least := tasks[0].priority;
      for i := 0 to |tasks|
        invariant least in (set t | t in tasks :: t.priority)
        invariant forall j :: 0 <= j < i ==> least <= tasks[j].priority
      {
        assert tasks[i] in tasks;
        if tasks[i].priority < least {
          least := tasks[i].priority;
        }
      }
      WithPrioritySorted(tasks, least);
      SortOfSorted(WithPriority(tasks, least));
      highest := StableSort(WithPriority(tasks, least));
      forall order: seq<seq<Task>> | IsExecutionOrder(tasks, order) ensures order != [] && highest == order[0] {
        NoGroups(tasks, order);
        assert Uniform(order[0]);
        FirstGroup(tasks, order, order[0][0].priority);
        ConcatMembers(order, 0, order[0][0]);
      }
    }

    /** The groups in the order a run executes them. */
    method GetExecutionOrder() returns (order: seq<seq<Task>>)
      requires Valid()
      ensures IsExecutionOrder(tasks, order)
    {
      var groups := GetPriorityGroups();
      var priorities := SortedKeys(groups.Keys);
      order := [];
      for i := 0 to |priorities|
        invariant order == GroupsOf(tasks, priorities[..i])
      {
        assert priorities[..i + 1] == priorities[..i] + [priorities[i]];
        GroupsOfAppend(tasks, priorities[..i], priorities[i]);
        order := order + [groups[priorities[i]]];
      }
      assert priorities[..|priorities|] == priorities;
      GroupsAreOrder(tasks, priorities);
    }
  }

  lemma Inhabited(s: set<int>)
    ensures s == {} || exists p: int :: p in s
  {
    forall p: int | p in s ensures exists q: int :: q in s {}
  }

  method SortedKeys(keys: set<int>) returns (ps: seq<int>)
    ensures Ascending(ps) && forall p :: p in ps <==> p in keys
  {
    ps := [];
    var left := keys;
    while left != {}
      invariant Ascending(ps) && left <= keys
      invariant forall p :: p in ps <==> p in keys - left
      invariant forall p, q :: p in ps && q in left ==> p < q
      decreases |left|
    {
      var least := Least(left);
      AscendingAppend(ps, least);
      ps := ps + [least];
      left := left - {least};
    }
  }

  method Least(s: set<int>) returns (least: int)
    requires s != {}
    ensures least in s && forall p :: p in s ==> least <= p
  {
    Inhabited(s);
    least :| least in s;
    var left := s - {least};
    while left != {}
      invariant left <= s && least in s
      invariant forall p :: p in s ==> p in left || least <= p
      decreases |left|
    {
      Inhabited(left);
      var p :| p in left;
      left := left - {p};
      if p < least {
        least := p;
      }
    }
  }
}
