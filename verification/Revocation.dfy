/** Stopping a task with everything it spawned: two ways of flattening nested results, and the
    worklist that revokes all tasks reachable through children. */
module Revocation {

  type Id = string

  /** A result, None, or a list of such. */
  datatype Node = Nothing | Leaf(id: Id) | List(items: seq<Node>)

  // ---------------------------------------------------------------- flattening

  /** Left to right, as a recursion. */
  function Flatten(n: Node): seq<Id> {
    match n
    case Nothing => []
    case Leaf(id) => [id]
    case List(items) => FlattenAll(items)
  }

  function FlattenAll(items: seq<Node>): seq<Id> {
    if items == [] then [] else Flatten(items[0]) + FlattenAll(items[1..])
  }

  /** What is still to come from a stack whose top is its last element. */
  ghost function Pending(stack: seq<Node>): seq<Id> {
    if stack == [] then [] else Flatten(stack[|stack| - 1]) + Pending(stack[..|stack| - 1])
  }

  function Size(n: Node): nat {
    match n
    case Nothing => 1
    case Leaf(_) => 1
    case List(items) => 1 + SizeAll(items)
  }

  function SizeAll(items: seq<Node>): nat {
    if items == [] then 0 else Size(items[0]) + SizeAll(items[1..])
  }

  ghost function StackSize(stack: seq<Node>): nat {
    if stack == [] then 0 else Size(stack[|stack| - 1]) + StackSize(stack[..|stack| - 1])
  }

  function Reverse<T>(s: seq<T>): seq<T> {
    if s == [] then [] else Reverse(s[1..]) + [s[0]]
  }

  /** Pushing the items in reverse order makes them pop from left to right. */
  lemma {:induction false} PushReversed(stack: seq<Node>, items: seq<Node>)
    ensures Pending(stack + Reverse(items)) == FlattenAll(items) + Pending(stack)
    ensures StackSize(stack + Reverse(items)) == SizeAll(items) + StackSize(stack)
    decreases |items|
  {
    if items == [] {
      assert stack + Reverse(items) == stack;
    } else {
      var pushed := stack + Reverse(items);
      assert pushed == (stack + Reverse(items[1..])) + [items[0]];
      assert pushed[..|pushed| - 1] == stack + Reverse(items[1..]);
      PushReversed(stack, items[1..]);
      assert Pending(pushed) == Flatten(items[0]) + (FlattenAll(items[1..]) + Pending(stack));
      assert FlattenAll(items) + Pending(stack) == Flatten(items[0]) + (FlattenAll(items[1..]) + Pending(stack));
    }
  }

  /** The worker's generator: an explicit stack, drained to the list of what it yields. */
  method WalkResults(root: Node) returns (yielded: seq<Id>)
    ensures yielded == Flatten(root)
  {
    yielded := [];
    var stack := [root];
    assert Pending([root]) == Flatten(root) + Pending([]);
    while stack != []
      invariant yielded + Pending(stack) == Flatten(root)
      decreases StackSize(stack)
    {
      var node := stack[|stack| - 1];
      stack := stack[..|stack| - 1];
      match node
      case Nothing =>
      case Leaf(id) => yielded := yielded + [id];
      case List(items) =>
        PushReversed(stack, items);
        stack := stack + Reverse(items);
    }
  }

  /** First occurrences in order, leaving out what is in `seen`. */
  function Dedup(ids: seq<Id>, seen: set<Id>): seq<Id> {
    if ids == [] then []
    else if ids[0] in seen then Dedup(ids[1..], seen)
    else [ids[0]] + Dedup(ids[1..], seen + {ids[0]})
  }

  function Elements(ids: seq<Id>): set<Id> {
    set id | id in ids
  }

  lemma {:induction false} DedupAppend(a: seq<Id>, b: seq<Id>, seen: set<Id>)
    ensures Dedup(a + b, seen) == Dedup(a, seen) + Dedup(b, seen + Elements(a))
    decreases |a|
  {
    if a == [] {
      assert a + b == b && seen + Elements(a) == seen;
    } else {
      assert (a + b)[1..] == a[1..] + b;
      var seen' := if a[0] in seen then seen else seen + {a[0]};
      DedupAppend(a[1..], b, seen');
      assert a == [a[0]] + a[1..];
      assert seen' + Elements(a[1..]) == seen + Elements(a);
    }
  }

  /** The position of the first occurrence. */
  function FirstIndex(ids: seq<Id>, id: Id): nat
    requires id in ids
  {
    if ids[0] == id then 0 else 1 + FirstIndex(ids[1..], id)
  }

  /** The elements of `d` occur in `ids`, and first in the order in which `d` lists them. */
  ghost predicate InFirstOrder(ids: seq<Id>, d: seq<Id>) {
    && (forall i :: 0 <= i < |d| ==> d[i] in ids)
    && (forall i, j :: 0 <= i < j < |d| ==> FirstIndex(ids, d[i]) < FirstIndex(ids, d[j]))
  }

  lemma InFirstOrderCons(ids: seq<Id>, d: seq<Id>)
    requires ids != [] && InFirstOrder(ids[1..], d) && ids[0] !in d
    ensures InFirstOrder(ids, d) && InFirstOrder(ids, [ids[0]] + d)
  {
    assert ids == [ids[0]] + ids[1..];
    forall i | 0 <= i < |d| ensures d[i] in ids && FirstIndex(ids, d[i]) == 1 + FirstIndex(ids[1..], d[i]) {
      assert d[i] in ids[1..] && d[i] != ids[0];
    }
    var e := [ids[0]] + d;
    forall i | 0 <= i < |e| ensures e[i] in ids && (i > 0 ==> e[i] == d[i - 1]) {}
  }

  /** De-duplication keeps exactly the new elements, once each, in the order of their first
      occurrences; there is only one such list. */
  lemma {:induction false} DedupMeaning(ids: seq<Id>, seen: set<Id>)
    ensures Elements(Dedup(ids, seen)) == Elements(ids) - seen
    ensures InFirstOrder(ids, Dedup(ids, seen))
    decreases |ids|
  {
    if ids != [] {
      var x := ids[0];
      assert ids == [x] + ids[1..];
      var e := Dedup(ids[1..], seen + {x});
      if x in seen {
        DedupMeaning(ids[1..], seen);
        assert x !in Elements(Dedup(ids, seen));
        InFirstOrderCons(ids, Dedup(ids, seen));
      } else {
        DedupMeaning(ids[1..], seen + {x});
        assert x !in Elements(e) && Elements([x] + e) == {x} + Elements(e);
        InFirstOrderCons(ids, e);
      }
    }
  }

  /** The beat side's walker: a recursion over two shared accumulators. */
  class Walker {
    var seen: set<Id>
    var out: seq<Id>

    constructor ()
      ensures seen == {} && out == []
    {
      seen, out := {}, [];
    }

    method Walk(item: Node)
      modifies this
      ensures out == old(out) + Dedup(Flatten(item), old(seen))
      ensures seen == old(seen) + Elements(Flatten(item))
      decreases item
    {
      match item
      case List(items) =>
        for i := 0 to |items|
          invariant out == old(out) + Dedup(FlattenAll(items[..i]), old(seen))
          invariant seen == old(seen) + Elements(FlattenAll(items[..i]))
        {
          FlattenSnoc(items, i);
          DedupAppend(FlattenAll(items[..i]), Flatten(items[i]), old(seen));
          Walk(items[i]);
        }
        assert items[..|items|] == items;
      case Leaf(id) =>
        if id !in seen {
          seen := seen + {id};
          out := out + [id];
        }
      case Nothing =>
    }
  }

  lemma {:induction false} FlattenSnoc(items: seq<Node>, i: nat)
    requires i < |items|
    ensures FlattenAll(items[..i + 1]) == FlattenAll(items[..i]) + Flatten(items[i])
    decreases i
  {
    if i == 0 {
      assert items[..1] == [items[0]] && items[..1][1..] == [] && items[..0] == [];
    } else {
      assert items[..i + 1][1..] == items[1..][..i] && items[..i][1..] == items[1..][..i - 1];
      FlattenSnoc(items[1..], i - 1);
    }
  }

  /** The walker returns exactly the de-duplication of what the generator yields. */
  method WalkUnique(root: Node) returns (unique: seq<Id>)
    ensures unique == Dedup(Flatten(root), {})
  {
    var w := new Walker();
    w.Walk(root);
    unique := w.out;
  }

  // ---------------------------------------------------------------- reachable tasks

  /** `result.children` of each task; a task without an entry has none. */
  type Graph = map<Id, Node>

  function Children(g: Graph, x: Id): set<Id> {
    if x in g then Elements(Flatten(g[x])) else {}
  }

  ghost predicate IsPath(g: Graph, path: seq<Id>) {
    path != [] && forall i :: 0 <= i < |path| - 1 ==> path[i + 1] in Children(g, path[i])
  }

  ghost predicate Reachable(g: Graph, root: Id, x: Id) {
    exists path :: IsPath(g, path) && path[0] == root && path[|path| - 1] == x
  }

  lemma ReachChild(g: Graph, root: Id, x: Id, y: Id)
    requires Reachable(g, root, x) && y in Children(g, x)
    ensures Reachable(g, root, y)
  {
    var path :| IsPath(g, path) && path[0] == root && path[|path| - 1] == x;
    var longer := path + [y];
    assert IsPath(g, longer) && longer[0] == root && longer[|longer| - 1] == y;
  }

  /** A set closed under children contains every path that starts in it. */
  lemma {:induction false} ClosedUnderPaths(g: Graph, s: set<Id>, path: seq<Id>)
    requires forall x :: x in s ==> Children(g, x) <= s
    requires IsPath(g, path) && path[0] in s
    ensures path[|path| - 1] in s
    decreases |path|
  {
    if |path| > 1 {
      assert path[0 + 1] in Children(g, path[0]);
      assert IsPath(g, path[1..]) by {
        forall i | 0 <= i < |path[1..]| - 1 ensures path[1..][i + 1] in Children(g, path[1..][i]) {
          assert path[i + 1 + 1] in Children(g, path[i + 1]);
        }
      }
      ClosedUnderPaths(g, s, path[1..]);
    }
  }

  /** All tasks the worklist can ever meet. */
  ghost function Universe(g: Graph, root: Id): set<Id> {
    {root} + g.Keys + set x, y | x in g && y in Children(g, x) :: y
  }

  /** Some order of a set: what `list` makes of it. */
  method ListOf(s: set<Id>) returns (ids: seq<Id>)
    ensures Elements(ids) == s && |ids| == |s|
  {
    ids := [];
    var left := s;
    while left != {}
      invariant left <= s && Elements(ids) == s - left && |ids| == |s| - |left|
      decreases |left|
    {
      var id :| id in left;
      left := left - {id};
      assert Elements(ids + [id]) == Elements(ids) + {id};
      ids := ids + [id];
    }
  }

  /** Unseen children of a seen task lie above every copy of that task on the stack, so a
      copy that comes to the top has no unseen children left. */
  ghost predicate CopiesSettled(g: Graph, stack: seq<Id>, seen: set<Id>) {
    forall p, y :: 0 <= p < |stack| && stack[p] in seen && y in Children(g, stack[p]) && y !in seen ==>
      y in stack[p + 1..]
  }

  /** Children of seen tasks are seen or waiting. */
  ghost predicate ChildrenWaiting(g: Graph, stack: seq<Id>, seen: set<Id>) {
    forall x, y :: x in seen && y in Children(g, x) ==> y in seen || y in stack
  }

  ghost predicate WorkInv(g: Graph, root: Id, stack: seq<Id>, seen: set<Id>) {
    && CopiesSettled(g, stack, seen)
    && ChildrenWaiting(g, stack, seen)
    && (root in seen || root in stack)
    && (forall x :: x in stack || x in seen ==> x in Universe(g, root) && Reachable(g, root, x))
  }

  /** The unseen children of the task on top of the stack. */
  ghost predicate IsNext(g: Graph, stack: seq<Id>, seen: set<Id>, next: seq<Id>)
    requires stack != []
  {
    var x := stack[|stack| - 1];
    forall y :: y in next <==> y in Children(g, x) && y !in seen + {x}
  }

  lemma SettledAfterPop(g: Graph, stack: seq<Id>, seen: set<Id>, next: seq<Id>)
    requires stack != [] && CopiesSettled(g, stack, seen) && IsNext(g, stack, seen, next)
    ensures CopiesSettled(g, stack[..|stack| - 1] + next, seen + {stack[|stack| - 1]})
  {
    var n := |stack| - 1;
    var x := stack[n];
    var stack' := stack[..n] + next;
    forall q | n <= q < |stack'| ensures stack'[q] !in seen + {x} {
      assert stack'[q] == next[q - n] && next[q - n] in next;
    }
    forall p, y | 0 <= p < |stack'| && stack'[p] in seen + {x} && y in Children(g, stack'[p]) && y !in seen + {x}
      ensures y in stack'[p + 1..]
    {
      assert p < n;
      if stack[p] == x {
        var k :| 0 <= k < |next| && next[k] == y;
        assert stack'[p + 1..][n + k - p - 1] == y;
      } else {
        assert y in stack[p + 1..];
        var k :| 0 <= k < |stack[p + 1..]| && stack[p + 1..][k] == y;
        assert stack[p + 1 + k] == y && stack'[p + 1..][k] == y;
      }
    }
  }

  lemma WaitingAfterPop(g: Graph, stack: seq<Id>, seen: set<Id>, next: seq<Id>)
    requires stack != [] && ChildrenWaiting(g, stack, seen) && IsNext(g, stack, seen, next)
    ensures ChildrenWaiting(g, stack[..|stack| - 1] + next, seen + {stack[|stack| - 1]})
  {
    var n := |stack| - 1;
    assert stack == stack[..n] + [stack[n]];
  }

  /** One turn keeps the invariant; a copy of a task already seen pushes nothing. */
  lemma TurnKeeps(g: Graph, root: Id, stack: seq<Id>, seen: set<Id>, next: seq<Id>)
    requires stack != [] && WorkInv(g, root, stack, seen) && IsNext(g, stack, seen, next)
    ensures var x := stack[|stack| - 1];
      && WorkInv(g, root, stack[..|stack| - 1] + next, seen + {x})
      && (x in seen ==> next == [])
      && x in Universe(g, root)
  {
    var n := |stack| - 1;
    var x := stack[n];
    assert x in stack && stack == stack[..n] + [x];
    SettledAfterPop(g, stack, seen, next);
    WaitingAfterPop(g, stack, seen, next);
    forall y | y in next ensures y in Universe(g, root) && Reachable(g, root, y) {
      ReachChild(g, root, x, y);
    }
    assert x in seen ==> forall y :: y in next ==> y in stack[n + 1..];
    assert stack[n + 1..] == [];
    NoMembers(next);
  }

  lemma Begins(g: Graph, root: Id)
    ensures WorkInv(g, root, [root], {})
  {
    var path := [root];
    assert IsPath(g, path) && path[0] == root && path[|path| - 1] == root;
  }

  ghost function Unseen(g: Graph, root: Id, seen: set<Id>): nat {
    |Universe(g, root) - seen|
  }

  /** A turn on an unseen task leaves fewer unseen; a turn on a copy leaves as many. */
  lemma TurnShrinks(g: Graph, root: Id, seen: set<Id>, x: Id)
    requires x in Universe(g, root)
    ensures x in seen ==> Unseen(g, root, seen + {x}) == Unseen(g, root, seen)
    ensures x !in seen ==> Unseen(g, root, seen + {x}) < Unseen(g, root, seen)
  {
    var u := Universe(g, root);
    assert u - (seen + {x}) == (u - seen) - {x};
  }

  lemma NoMembers(s: seq<Id>)
    ensures s == [] || s[0] in s
  {}

  lemma AllReached(g: Graph, root: Id, seen: set<Id>, x: Id)
    requires WorkInv(g, root, [], seen)
    ensures x in seen <==> Reachable(g, root, x)
  {
    if Reachable(g, root, x) {
      var path :| IsPath(g, path) && path[0] == root && path[|path| - 1] == x;
      ClosedUnderPaths(g, seen, path);
    }
  }

  /** The children of the inspected task that are not yet seen, in some order. */
  method UnseenChildren(g: Graph, current: Id, seen: set<Id>) returns (next: seq<Id>)
    ensures forall y :: y in next <==> y in Children(g, current) && y !in seen
  {
    var tasks := WalkUnique(if current in g then g[current] else Nothing);
    DedupMeaning(Flatten(if current in g then g[current] else Nothing), {});
    assert Elements(tasks) == Children(g, current);
    next := ListOf(Elements(tasks) - seen);
    assert forall y :: y in next <==> y in Elements(next);
  }

  /** The force-stop worklist. It never looks for copies when it pushes and never skips a task
      it has seen, yet it ends, and it revokes exactly the tasks reachable from the root. */
  method ForceStop(g: Graph, root: Id) returns (revoked: seq<Id>)
    ensures forall x :: x in revoked <==> Reachable(g, root, x)
  {
    revoked := [];
    var inspecting := [root];
    var seen: set<Id> := {};
    Begins(g, root);
    while |inspecting| > 0
      invariant WorkInv(g, root, inspecting, seen)
      invariant forall x :: x in revoked <==> x in seen
      decreases Unseen(g, root, seen), |inspecting|
    {
      var current := inspecting[|inspecting| - 1];
      var next := UnseenChildren(g, current, seen + {current});
      TurnKeeps(g, root, inspecting, seen, next);
      TurnShrinks(g, root, seen, current);
      seen := seen + {current};
      inspecting := inspecting[..|inspecting| - 1] + next;
      revoked := revoked + [current];
    }
    forall x ensures x in seen <==> Reachable(g, root, x) {
      AllReached(g, root, seen, x);
    }
  }
}
