/** The query builder and the paging on top of it: how the builder's calls become a query, what
    the query returns, and how its pages and its count fit together. */
module Queries {
  import opened Wrappers

  // ---------------------------------------------------------------- queries and their rows

  type Record = string

  /** One row of a query: a record of the table and, per joined table, a record or nothing. */
  datatype Joined = Joined(base: Record, others: map<string, Option<Record>>)

  datatype Join = Join(name: string, table: seq<Record>, on: (Joined, Record) -> bool)

  /** A filter condition, by the rows on which it is true. */
  datatype Cond = Cond(holds: Joined -> bool)

  datatype Order = Order(column: string, descending: bool)

  type Column = string

  type LoadOption = string

  /** No columns means that whole entities are selected. */
  datatype Query = Query(columns: seq<Column>, joins: seq<Join>, options: seq<LoadOption>, filters: seq<Cond>,
    orders: seq<Order>)

  function Matches(j: Join, r: Joined, table: seq<Record>): seq<Record>
    decreases |table|
  {
    if table == [] then []
    else (if j.on(r, table[0]) then [table[0]] else []) + Matches(j, r, table[1..])
  }

  function WithOther(r: Joined, name: string, other: Option<Record>): Joined {
    r.(others := r.others[name := other])
  }

  /** A row without a match is kept, with nothing joined. */
  function Extended(r: Joined, j: Join): seq<Joined> {
    var ms := Matches(j, r, j.table);
    if ms == [] then [WithOther(r, j.name, None)]
    else seq(|ms|, i requires 0 <= i < |ms| => WithOther(r, j.name, Some(ms[i])))
  }

  function OuterJoin(rows: seq<Joined>, j: Join): seq<Joined>
    decreases |rows|
  {
    if rows == [] then [] else Extended(rows[0], j) + OuterJoin(rows[1..], j)
  }

  function JoinAll(rows: seq<Joined>, joins: seq<Join>): seq<Joined>
    decreases |joins|
  {
    if joins == [] then rows else JoinAll(OuterJoin(rows, joins[0]), joins[1..])
  }

  predicate Passes(r: Joined, filters: seq<Cond>) {
    forall i :: 0 <= i < |filters| ==> filters[i].holds(r)
  }

  function Where(rows: seq<Joined>, filters: seq<Cond>): seq<Joined>
    decreases |rows|
  {
    if rows == [] then []
    else if Passes(rows[0], filters) then [rows[0]] + Where(rows[1..], filters)
    else Where(rows[1..], filters)
  }

  /** A WHERE keeps the rows on which every condition is true, in their order. */
  lemma {:induction false} WhereExactly(a: seq<Joined>, b: seq<Joined>, filters: seq<Cond>)
    ensures Where(a + b, filters) == Where(a, filters) + Where(b, filters)
    ensures |b| == 1 ==> Where(b, filters) == if forall c :: c in filters ==> c.holds(b[0]) then b else []
    decreases |a|
  {
    if a == [] {
      assert a + b == b;
      if |b| == 1 {
        assert b == [b[0]] && b[1..] == [];
        assert (forall c :: c in filters ==> c.holds(b[0])) <==> Passes(b[0], filters);
      }
    } else {
      assert (a + b)[1..] == a[1..] + b;
      WhereExactly(a[1..], b, filters);
    }
  }

  function TableRows(table: seq<Record>): (rows: seq<Joined>)
    ensures |rows| == |table|
  {
    seq(|table|, i requires 0 <= i < |table| => Joined(table[i], map[]))
  }

  /** The rows of a query in the order the database meets them. */
  function Rows(q: Query, table: seq<Record>): seq<Joined> {
    Where(JoinAll(TableRows(table), q.joins), q.filters)
  }

  /** The database's sorting: any function of the order and the rows that rearranges the rows. */
  ghost predicate Sorting(sort: (seq<Order>, seq<Joined>) -> seq<Joined>) {
    forall os, rows :: multiset(sort(os, rows)) == multiset(rows)
  }

  function Ordered(q: Query, table: seq<Record>, sort: (seq<Order>, seq<Joined>) -> seq<Joined>): seq<Joined> {
    if q.orders == [] then Rows(q, table) else sort(q.orders, Rows(q, table))
  }

  function Objects(rows: seq<Joined>): set<Record> {
    set r | r in rows :: r.base
  }

  /** How many results reading the query yields: a query for whole entities yields each once. */
  function Yield(q: Query, rows: seq<Joined>): nat {
    if q.columns == [] then |Objects(rows)| else |rows|
  }

  // ---------------------------------------------------------------- the builder

  datatype Call =
    | FilterBy(filters: Option<seq<Cond>>)
    | SortBy(orders: Option<seq<Order>>)
    | OuterJoins(joins: Option<seq<Join>>)
    | QueryOptions(options: Option<seq<LoadOption>>)
    | Columns(columns: Option<seq<Column>>)

  datatype Step = JOIN | OPTIONS | FILTER | SORT

  predicate Given<T>(o: Option<seq<T>>) {
    o.Some? && |o.value| > 0
  }

  /** The builder's fields: the list last given of each kind, and the steps in its plan. */
  datatype Builder = Builder(
    filters: Option<seq<Cond>>, orders: Option<seq<Order>>, joins: Option<seq<Join>>,
    options: Option<seq<LoadOption>>, columns: Option<seq<Column>>, plan: set<Step>)

  const EMPTY := Builder(None, None, None, None, None, {})

  function Called(b: Builder, c: Call): Builder {
    match c
    case FilterBy(x) => b.(filters := x, plan := b.plan + if Given(x) then {FILTER} else {})
    case SortBy(x) => b.(orders := x, plan := b.plan + if Given(x) then {SORT} else {})
    case OuterJoins(x) => b.(joins := x, plan := b.plan + if Given(x) then {JOIN} else {})
    case QueryOptions(x) => b.(options := x, plan := b.plan + if Given(x) then {OPTIONS} else {})
    case Columns(x) => b.(columns := x)
  }

  function After(calls: seq<Call>): Builder
    decreases |calls|
  {
    if calls == [] then EMPTY else Called(After(calls[..|calls| - 1]), calls[|calls| - 1])
  }

  /** A planned step whose list has since been set to nothing cannot be carried out. */
  predicate Broken(b: Builder, step: Step) {
    step in b.plan && match step
      case FILTER => b.filters == None
      case SORT => b.orders == None
      case JOIN => b.joins == None
      case OPTIONS => b.options == None
  }

  function Planned<T>(b: Builder, step: Step, list: Option<seq<T>>): seq<T> {
    if step in b.plan && list.Some? then list.value else []
  }

  function BuildOf(b: Builder): Result<Query, ()> {
    if Broken(b, JOIN) || Broken(b, OPTIONS) || Broken(b, FILTER) || Broken(b, SORT) then Err(())
    else Ok(Query(
      if b.columns.Some? then b.columns.value else [],
      Planned(b, JOIN, b.joins), Planned(b, OPTIONS, b.options),
      Planned(b, FILTER, b.filters), Planned(b, SORT, b.orders)))
  }

  /** The query that is counted: whole entities, and no sort step. */
  function CountOf(b: Builder): Result<Query, ()> {
    if Broken(b, JOIN) || Broken(b, OPTIONS) || Broken(b, FILTER) then Err(())
    else Ok(Query(
      [], Planned(b, JOIN, b.joins), Planned(b, OPTIONS, b.options), Planned(b, FILTER, b.filters), []))
  }

  /** The query with the first `n` of the given joins put on top of it. */
  function Joining(q: Query, joins: seq<Join>, n: nat): Query
    requires n <= |joins|
  {
    q.(joins := q.joins + joins[..n])
  }

  class QueryBuilder {
    var filters: Option<seq<Cond>>
    var orders: Option<seq<Order>>
    var joins: Option<seq<Join>>
    var options: Option<seq<LoadOption>>
    var columns: Option<seq<Column>>
    var plan: set<Step>

    function View(): Builder
      reads this
    {
      Builder(filters, orders, joins, options, columns, plan)
    }

    constructor ()
      ensures View() == EMPTY
    {
      filters, orders, joins, options, columns := None, None, None, None, None;
      plan := {};
    }

    method SetFilters(fs: Option<seq<Cond>>)
      modifies this
      ensures View() == Called(old(View()), FilterBy(fs))
      ensures filters == fs && plan == old(plan) + if fs != None && fs != Some([]) then {FILTER} else {}
    {
      filters := fs;
      if fs.Some? && |fs.value| > 0 {
        plan := plan + {FILTER};
      }
    }

    method SetSortBy(os: Option<seq<Order>>)
      modifies this
      ensures View() == Called(old(View()), SortBy(os))
      ensures orders == os && plan == old(plan) + if os != None && os != Some([]) then {SORT} else {}
    {
      orders := os;
      if os.Some? && |os.value| > 0 {
        plan := plan + {SORT};
      }
    }

    method SetOuterJoins(js: Option<seq<Join>>)
      modifies this
      ensures View() == Called(old(View()), OuterJoins(js))
      ensures joins == js && plan == old(plan) + if js != None && js != Some([]) then {JOIN} else {}
    {
      joins := js;
      if js.Some? && |js.value| > 0 {
        plan := plan + {JOIN};
      }
    }

    method SetQueryOptions(os: Option<seq<LoadOption>>)
      modifies this
      ensures View() == Called(old(View()), QueryOptions(os))
      ensures options == os && plan == old(plan) + if os != None && os != Some([]) then {OPTIONS} else {}
    {
      options := os;
      if os.Some? && |os.value| > 0 {
        plan := plan + {OPTIONS};
      }
    }

    method SetColumns(cs: Option<seq<Column>>)
      modifies this
      ensures View() == Called(old(View()), Columns(cs))
    {
      columns := cs;
    }

    /** One step; unplanned, it returns the query as it is. */
    method Perform(step: Step, q: Query) returns (r: Result<Query, ()>)
      ensures r == if Broken(View(), step) then Err(()) else Ok(match step
        case JOIN => q.(joins := q.joins + Planned(View(), JOIN, joins))
        case OPTIONS => q.(options := q.options + Planned(View(), OPTIONS, options))
        case FILTER => q.(filters := q.filters + Planned(View(), FILTER, filters))
        case SORT => q.(orders := q.orders + Planned(View(), SORT, orders)))
      ensures step !in plan ==> r == Ok(q)
    {
      r := Ok(q);
      if step !in plan {
        assert q.joins + [] == q.joins && q.options + [] == q.options;
        assert q.filters + [] == q.filters && q.orders + [] == q.orders;
        return;
      }
      match step {
        case JOIN =>
          if joins == None {
            return Err(());
          }
          var joined := q;
          assert q.joins + joins.value[..0] == q.joins;
          for k := 0 to |joins.value|
            invariant joined == Joining(q, joins.value, k)
          {
            assert joins.value[..k + 1] == joins.value[..k] + [joins.value[k]];
            joined := joined.(joins := joined.joins + [joins.value[k]]);
          }
          assert joins.value[..|joins.value|] == joins.value;
          r := Ok(joined);
        case OPTIONS => r := if options == None then Err(()) else Ok(q.(options := q.options + options.value));
        case FILTER => r := if filters == None then Err(()) else Ok(q.(filters := q.filters + filters.value));
        case SORT => r := if orders == None then Err(()) else Ok(q.(orders := q.orders + orders.value));
      }
    }

    method Build() returns (r: Result<Query, ()>)
      ensures r == BuildOf(View())
    {
      r := Ok(Query(if columns.Some? then columns.value else [], [], [], [], []));
      var steps := [JOIN, OPTIONS, FILTER, SORT];
      for k := 0 to 4
        invariant r.Ok? && forall i :: 0 <= i < k ==> !Broken(View(), steps[i])
        invariant r.value == Query(
          if columns.Some? then columns.value else [],
          if k > 0 then Planned(View(), JOIN, joins) else [],
          if k > 1 then Planned(View(), OPTIONS, options) else [],
          if k > 2 then Planned(View(), FILTER, filters) else [],
          if k > 3 then Planned(View(), SORT, orders) else [])
      {
        r := Perform(steps[k], r.value);
        if r.Err? {
          assert Broken(View(), steps[k]);
          return;
        }
      }
      assert !Broken(View(), steps[0]) && !Broken(View(), steps[1]) && !Broken(View(), steps[2]) &&
        !Broken(View(), steps[3]);
    }

    method Count() returns (r: Result<Query, ()>)
      ensures r == CountOf(View())
    {
      r := Ok(Query([], [], [], [], []));
      var steps := [JOIN, OPTIONS, FILTER];
      for k := 0 to 3
        invariant r.Ok? && forall i :: 0 <= i < k ==> !Broken(View(), steps[i])
        invariant r.value == Query(
          [],
          if k > 0 then Planned(View(), JOIN, joins) else [],
          if k > 1 then Planned(View(), OPTIONS, options) else [],
          if k > 2 then Planned(View(), FILTER, filters) else [],
          [])
      {
        r := Perform(steps[k], r.value);
        if r.Err? {
          assert Broken(View(), steps[k]);
          return;
        }
      }
      assert !Broken(View(), steps[0]) && !Broken(View(), steps[1]) && !Broken(View(), steps[2]);
    }
  }

  // ---------------------------------------------------------------- the order of the calls

  datatype Kind = FILTERS | ORDERS | JOINS | OPTS | COLUMNS

  function KindOf(c: Call): Kind {
    match c
    case FilterBy(_) => FILTERS
    case SortBy(_) => ORDERS
    case OuterJoins(_) => JOINS
    case QueryOptions(_) => OPTS
    case Columns(_) => COLUMNS
  }

  /** The list a builder holds of a kind, as the call that would set it. */
  function Held(b: Builder, k: Kind): Call {
    match k
    case FILTERS => FilterBy(b.filters)
    case ORDERS => SortBy(b.orders)
    case JOINS => OuterJoins(b.joins)
    case OPTS => QueryOptions(b.options)
    case COLUMNS => Columns(b.columns)
  }

  predicate GivesList(c: Call) {
    match c
    case FilterBy(x) => Given(x)
    case SortBy(x) => Given(x)
    case OuterJoins(x) => Given(x)
    case QueryOptions(x) => Given(x)
    case Columns(_) => false
  }

  function StepKind(s: Step): Kind {
    match s
    case FILTER => FILTERS
    case SORT => ORDERS
    case JOIN => JOINS
    case OPTIONS => OPTS
  }

  function LastOf(calls: seq<Call>, k: Kind): Call
    decreases |calls|
  {
    if calls == [] then Held(EMPTY, k)
    else if KindOf(calls[|calls| - 1]) == k then calls[|calls| - 1]
    else LastOf(calls[..|calls| - 1], k)
  }

  /** The builder holds the last list of each kind; its plan has the kinds some call gave a
      list for, however long ago. */
  lemma {:induction false} AfterMeaning(calls: seq<Call>)
    ensures forall k :: Held(After(calls), k) == LastOf(calls, k)
    ensures forall s :: s in After(calls).plan <==> exists c :: c in calls && KindOf(c) == StepKind(s) && GivesList(c)
    decreases |calls|
  {
    if calls != [] {
      var last := calls[|calls| - 1];
      var before := calls[..|calls| - 1];
      assert calls == before + [last];
      AfterMeaning(before);
      forall s
        ensures s in After(calls).plan <==> exists c :: c in calls && KindOf(c) == StepKind(s) && GivesList(c)
      {
        if s in After(before).plan {
          var c :| c in before && KindOf(c) == StepKind(s) && GivesList(c);
          assert c in calls;
        } else if s in After(calls).plan {
          assert last in calls && KindOf(last) == StepKind(s) && GivesList(last);
        }
        if c :| c in calls && KindOf(c) == StepKind(s) && GivesList(c) {
          assert c in before || c == last;
        }
      }
    }
  }

  // The list a call gives, if it is of the kind.

  function FilterList(c: Call): seq<Cond> {
    if c.FilterBy? && c.filters.Some? then c.filters.value else []
  }

  function OrderList(c: Call): seq<Order> {
    if c.SortBy? && c.orders.Some? then c.orders.value else []
  }

  function JoinList(c: Call): seq<Join> {
    if c.OuterJoins? && c.joins.Some? then c.joins.value else []
  }

  function OptionList(c: Call): seq<LoadOption> {
    if c.QueryOptions? && c.options.Some? then c.options.value else []
  }

  function ColumnList(c: Call): seq<Column> {
    if c.Columns? && c.columns.Some? then c.columns.value else []
  }

  lemma {:induction false} ListsArePlanned(calls: seq<Call>)
    ensures var b := After(calls);
      && (Given(b.filters) ==> FILTER in b.plan) && (Given(b.orders) ==> SORT in b.plan)
      && (Given(b.joins) ==> JOIN in b.plan) && (Given(b.options) ==> OPTIONS in b.plan)
    decreases |calls|
  {
    if calls != [] {
      ListsArePlanned(calls[..|calls| - 1]);
    }
  }

  /** A query that is built has exactly the lists last given, each in its place; the query that is
      counted has the same joins, options and filters, and neither columns nor an order. */
  lemma BuiltQuery(calls: seq<Call>)
    ensures BuildOf(After(calls)).Ok? ==> BuildOf(After(calls)).value == Query(
      ColumnList(LastOf(calls, COLUMNS)), JoinList(LastOf(calls, JOINS)), OptionList(LastOf(calls, OPTS)),
      FilterList(LastOf(calls, FILTERS)), OrderList(LastOf(calls, ORDERS)))
    ensures CountOf(After(calls)).Ok? ==> CountOf(After(calls)).value == Query(
      [], JoinList(LastOf(calls, JOINS)), OptionList(LastOf(calls, OPTS)), FilterList(LastOf(calls, FILTERS)), [])
  {
    AfterMeaning(calls);
    ListsArePlanned(calls);
    forall k ensures Held(After(calls), k) == LastOf(calls, k) {}
    assert LastOf(calls, COLUMNS) == Held(After(calls), COLUMNS) && LastOf(calls, JOINS) == Held(After(calls), JOINS);
    assert LastOf(calls, OPTS) == Held(After(calls), OPTS) && LastOf(calls, FILTERS) == Held(After(calls), FILTERS);
    assert LastOf(calls, ORDERS) == Held(After(calls), ORDERS);
  }

  predicate IsNothing(c: Call) {
    match c
    case FilterBy(x) => x == None
    case SortBy(x) => x == None
    case OuterJoins(x) => x == None
    case QueryOptions(x) => x == None
    case Columns(x) => x == None
  }

  /** Building raises exactly when the last list of some kind is nothing although an earlier
      call of that kind gave one. */
  lemma BuildRaises(calls: seq<Call>)
    ensures BuildOf(After(calls)).Err? <==>
      exists s, c :: c in calls && KindOf(c) == StepKind(s) && GivesList(c) && IsNothing(LastOf(calls, StepKind(s)))
  {
    AfterMeaning(calls);
    forall s ensures Broken(After(calls), s) <==>
      s in After(calls).plan && IsNothing(Held(After(calls), StepKind(s))) {}
    if BuildOf(After(calls)).Err? {
      var s :| s in [JOIN, OPTIONS, FILTER, SORT] && Broken(After(calls), s);
      assert s in After(calls).plan && IsNothing(LastOf(calls, StepKind(s)));
    }
    if s, c :| c in calls && KindOf(c) == StepKind(s) && GivesList(c) && IsNothing(LastOf(calls, StepKind(s))) {
      assert Broken(After(calls), s);
    }
  }

  ghost predicate OncePerKind(calls: seq<Call>) {
    forall i, j :: 0 <= i < j < |calls| ==> KindOf(calls[i]) != KindOf(calls[j])
  }

  lemma {:induction false} LastIsOnly(calls: seq<Call>, k: Kind)
    requires OncePerKind(calls)
    ensures forall c :: c in calls && KindOf(c) == k ==> LastOf(calls, k) == c
    ensures (forall c :: c in calls ==> KindOf(c) != k) ==> LastOf(calls, k) == Held(EMPTY, k)
    decreases |calls|
  {
    if calls != [] {
      var before := calls[..|calls| - 1];
      assert calls == before + [calls[|calls| - 1]];
      LastIsOnly(before, k);
    }
  }

  /** With at most one call of each kind, the built query does not depend on their order. */
  lemma OrderOfCalls(a: seq<Call>, b: seq<Call>)
    requires OncePerKind(a) && OncePerKind(b)
    requires forall c :: c in a <==> c in b
    ensures BuildOf(After(a)) == BuildOf(After(b)) && CountOf(After(a)) == CountOf(After(b))
    ensures BuildOf(After(a)).Ok?
  {
    AfterMeaning(a);
    AfterMeaning(b);
    forall k ensures Held(After(a), k) == Held(After(b), k) {
      LastIsOnly(a, k);
      LastIsOnly(b, k);
      if c :| c in a && KindOf(c) == k {
        assert c in b;
      }
    }
    assert After(a) == After(b) by {
      assert Held(After(a), FILTERS) == Held(After(b), FILTERS);
      assert Held(After(a), ORDERS) == Held(After(b), ORDERS);
      assert Held(After(a), JOINS) == Held(After(b), JOINS);
      assert Held(After(a), OPTS) == Held(After(b), OPTS);
      assert Held(After(a), COLUMNS) == Held(After(b), COLUMNS);
      assert forall s :: s in After(a).plan <==> s in After(b).plan;
      assert After(a).plan == After(b).plan;
    }
    BuildRaises(a);
    forall s, c | c in a && KindOf(c) == StepKind(s) && GivesList(c)
      ensures !IsNothing(LastOf(a, StepKind(s)))
    {
      LastIsOnly(a, StepKind(s));
    }
  }

  // ---------------------------------------------------------------- counting

  ghost predicate NoRepeats(rows: seq<Joined>) {
    forall i, k :: 0 <= i < k < |rows| ==> rows[i].base != rows[k].base
  }

  lemma ObjectsNext(before: seq<Joined>, r: Joined)
    ensures Objects(before + [r]) == Objects(before) + {r.base}
    ensures NoRepeats(before + [r]) <==> NoRepeats(before) && r.base !in Objects(before)
  {
    var rows := before + [r];
    if NoRepeats(rows) {
      assert forall i :: 0 <= i < |before| ==> before[i] == rows[i];
      forall q | q in before ensures q.base != r.base {
        var i :| 0 <= i < |before| && before[i] == q;
        assert rows[i].base != rows[|before|].base;
      }
    }
    if NoRepeats(before) && r.base !in Objects(before) {
      forall i, k | 0 <= i < k < |rows| ensures rows[i].base != rows[k].base {
        assert rows[i] == before[i] && before[i] in before;
      }
    }
  }

  lemma {:induction false} ObjectsSize(rows: seq<Joined>)
    ensures |Objects(rows)| <= |rows|
    ensures |Objects(rows)| == |rows| <==> NoRepeats(rows)
    decreases |rows|
  {
    if rows != [] {
      var n := |rows| - 1;
      ObjectsSize(rows[..n]);
      ObjectsNext(rows[..n], rows[n]);
      assert rows == rows[..n] + [rows[n]];
    }
  }

  lemma SortedRows(q: Query, table: seq<Record>, sort: (seq<Order>, seq<Joined>) -> seq<Joined>)
    requires Sorting(sort)
    ensures |Ordered(q, table, sort)| == |Rows(q, table)|
    ensures Objects(Ordered(q, table, sort)) == Objects(Rows(q, table))
    ensures Ordered(q, table, sort) == if |q.orders| > 0 then sort(q.orders, Rows(q, table)) else Rows(q, table)
  {
    var a, b := Ordered(q, table, sort), Rows(q, table);
    assert multiset(a) == multiset(b);
    assert |multiset(a)| == |a| && |multiset(b)| == |b|;
    forall r ensures r in a <==> r in b {
      assert r in multiset(a) <==> r in multiset(b);
    }
  }

  /** The count is the number of rows of the built query, sorted or not. It is also the number
      of results read, exactly if columns are selected or no record is in two rows. */
  lemma CountExactly(b: Builder, table: seq<Record>, sort: (seq<Order>, seq<Joined>) -> seq<Joined>)
    requires BuildOf(b).Ok? && Sorting(sort)
    ensures CountOf(b).Ok?
    ensures var q, n := BuildOf(b).value, |Rows(CountOf(b).value, table)|;
      && n == |Ordered(q, table, sort)|
      && (n == Yield(q, Ordered(q, table, sort)) <==> q.columns != [] || NoRepeats(Rows(q, table)))
  {
    var q := BuildOf(b).value;
    SortedRows(q, table, sort);
    ObjectsSize(Rows(q, table));
  }

  // ---------------------------------------------------------------- joins that can be left out

  /** At most one record matches, whatever the row. */
  ghost predicate ToOne(j: Join) {
    forall r: Joined :: |Matches(j, r, j.table)| <= 1
  }

  ghost predicate DistinctKeys(table: seq<Record>, key: Record -> string) {
    forall i, k :: 0 <= i < k < |table| ==> key(table[i]) != key(table[k])
  }

  /** A join on a unique key is to-one. */
  lemma {:induction false} KeyJoins(j: Join, r: Joined, table: seq<Record>, key: Record -> string,
      reference: Option<string>)
    requires DistinctKeys(table, key)
    requires forall m :: j.on(r, m) <==> reference == Some(key(m))
    ensures |Matches(j, r, table)| <= 1
    ensures Matches(j, r, table) == [] <==> forall i :: 0 <= i < |table| ==> reference != Some(key(table[i]))
    decreases |table|
  {
    if table != [] {
      assert forall i :: 0 <= i < |table| - 1 ==> table[1..][i] == table[i + 1];
      KeyJoins(j, r, table[1..], key, reference);
      if !j.on(r, table[0]) && Matches(j, r, table[1..]) == [] {
        forall i | 0 <= i < |table| ensures reference != Some(key(table[i])) {
          if i > 0 {
            assert table[1..][i - 1] == table[i];
          }
        }
      }
    }
  }

  function Stripped(rows: seq<Joined>, names: set<string>): (s: seq<Joined>)
    ensures |s| == |rows|
  {
    seq(|rows|, i requires 0 <= i < |rows| => Strip(rows[i], names))
  }

  function Strip(r: Joined, names: set<string>): Joined {
    Joined(r.base, r.others - names)
  }

  ghost predicate JoinIgnores(j: Join, names: set<string>) {
    j.name !in names && forall r: Joined, m: Record :: j.on(r, m) == j.on(Strip(r, names), m)
  }

  ghost predicate FilterIgnores(f: Cond, names: set<string>) {
    forall r: Joined :: f.holds(r) == f.holds(Strip(r, names))
  }

  lemma StrippedAppend(a: seq<Joined>, b: seq<Joined>, names: set<string>)
    ensures Stripped(a + b, names) == Stripped(a, names) + Stripped(b, names)
  {}

  lemma {:induction false} DropOne(rows: seq<Joined>, j: Join, names: set<string>)
    requires ToOne(j) && j.name in names
    ensures Stripped(OuterJoin(rows, j), names) == Stripped(rows, names)
    decreases |rows|
  {
    if rows != [] {
      DropOne(rows[1..], j, names);
      var e := Extended(rows[0], j);
      assert |Matches(j, rows[0], j.table)| <= 1;
      assert |e| == 1;
      assert e[0].others - names == rows[0].others - names;
      StrippedAppend(e, OuterJoin(rows[1..], j), names);
      assert rows == [rows[0]] + rows[1..];
      StrippedAppend([rows[0]], rows[1..], names);
    }
  }

  lemma {:induction false} SameMatches(j: Join, r: Joined, s: Joined, table: seq<Record>)
    requires forall m: Record :: j.on(r, m) == j.on(s, m)
    ensures Matches(j, r, table) == Matches(j, s, table)
    decreases |table|
  {
    if table != [] {
      SameMatches(j, r, s, table[1..]);
    }
  }

  lemma {:induction false} JoinStripped(rows: seq<Joined>, j: Join, names: set<string>)
    requires JoinIgnores(j, names)
    ensures Stripped(OuterJoin(rows, j), names) == OuterJoin(Stripped(rows, names), j)
    decreases |rows|
  {
    if rows != [] {
      JoinStripped(rows[1..], j, names);
      var r := rows[0];
      SameMatches(j, r, Strip(r, names), j.table);
      forall o: Option<Record> ensures Strip(WithOther(r, j.name, o), names) == WithOther(Strip(r, names), j.name, o) {
        assert r.others[j.name := o] - names == (r.others - names)[j.name := o];
      }
      assert Stripped(Extended(r, j), names) == Extended(Strip(r, names), j);
      StrippedAppend(Extended(r, j), OuterJoin(rows[1..], j), names);
      assert Stripped(rows, names)[1..] == Stripped(rows[1..], names);
    }
  }

  lemma {:induction false} DropAll(rows: seq<Joined>, joins: seq<Join>, names: set<string>)
    requires forall i :: 0 <= i < |joins| ==> ToOne(joins[i]) && joins[i].name in names
    ensures Stripped(JoinAll(rows, joins), names) == Stripped(rows, names)
    decreases |joins|
  {
    if joins != [] {
      DropOne(rows, joins[0], names);
      DropAll(OuterJoin(rows, joins[0]), joins[1..], names);
    }
  }

  lemma {:induction false} JoinAllStripped(rows: seq<Joined>, joins: seq<Join>, names: set<string>)
    requires forall i :: 0 <= i < |joins| ==> JoinIgnores(joins[i], names)
    ensures Stripped(JoinAll(rows, joins), names) == JoinAll(Stripped(rows, names), joins)
    decreases |joins|
  {
    if joins != [] {
      JoinStripped(rows, joins[0], names);
      JoinAllStripped(OuterJoin(rows, joins[0]), joins[1..], names);
    }
  }

  lemma {:induction false} JoinAllAppend(rows: seq<Joined>, a: seq<Join>, b: seq<Join>)
    ensures JoinAll(rows, a + b) == JoinAll(JoinAll(rows, a), b)
    decreases |a|
  {
    if a == [] {
      assert a + b == b;
    } else {
      assert (a + b)[1..] == a[1..] + b;
      JoinAllAppend(OuterJoin(rows, a[0]), a[1..], b);
    }
  }

  lemma {:induction false} WhereStripped(rows: seq<Joined>, filters: seq<Cond>, names: set<string>)
    requires forall i :: 0 <= i < |filters| ==> FilterIgnores(filters[i], names)
    ensures Stripped(Where(rows, filters), names) == Where(Stripped(rows, names), filters)
    decreases |rows|
  {
    if rows != [] {
      WhereStripped(rows[1..], filters, names);
      var rest := Where(rows[1..], filters);
      assert Stripped(rows, names)[1..] == Stripped(rows[1..], names);
      assert Passes(rows[0], filters) == Passes(Strip(rows[0], names), filters);
      if Passes(rows[0], filters) {
        StrippedAppend([rows[0]], rest, names);
        assert Stripped([rows[0]], names) == [Strip(rows[0], names)];
      }
    }
  }

  lemma {:induction false} WhereKeepsDistinct(rows: seq<Joined>, filters: seq<Cond>)
    requires NoRepeats(rows)
    ensures NoRepeats(Where(rows, filters))
    ensures forall r :: r in Where(rows, filters) ==> r in rows
    decreases |rows|
  {
    if rows != [] {
      assert NoRepeats(rows[1..]) by {
        assert forall i :: 0 <= i < |rows| - 1 ==> rows[1..][i] == rows[i + 1];
      }
      WhereKeepsDistinct(rows[1..], filters);
      var rest := Where(rows[1..], filters);
      forall i | 0 <= i < |rest| ensures rest[i].base != rows[0].base {
        assert rest[i] in rows[1..];
        var k :| 0 <= k < |rows| - 1 && rows[1..][k] == rest[i];
        assert rows[k + 1] == rest[i];
      }
      forall r | r in Where(rows, filters) ensures r in rows {
        assert r == rows[0] || r in rest;
        assert r in rest ==> r in rows[1..];
      }
    }
  }

  ghost predicate DistinctRecords(table: seq<Record>) {
    forall i, k :: 0 <= i < k < |table| ==> table[i] != table[k]
  }

  /** With to-one joins, no record is in two rows. */
  lemma ToOneNoRepeats(q: Query, table: seq<Record>)
    requires DistinctRecords(table)
    requires forall i :: 0 <= i < |q.joins| ==> ToOne(q.joins[i])
    ensures NoRepeats(Rows(q, table))
  {
    var base := TableRows(table);
    var joined := JoinAll(base, q.joins);
    var names := set i | 0 <= i < |q.joins| :: q.joins[i].name;
    DropAll(base, q.joins, names);
    assert |joined| == |base|;
    forall i | 0 <= i < |base| ensures joined[i].base == table[i] {
      assert Stripped(joined, names)[i] == Stripped(base, names)[i];
    }
    WhereKeepsDistinct(joined, q.filters);
  }

  /** With to-one joins, the count of a query is the number of results it yields. */
  lemma ToOneCount(b: Builder, table: seq<Record>, sort: (seq<Order>, seq<Joined>) -> seq<Joined>)
    requires BuildOf(b).Ok? && Sorting(sort) && DistinctRecords(table)
    requires forall i :: 0 <= i < |BuildOf(b).value.joins| ==> ToOne(BuildOf(b).value.joins[i])
    ensures CountOf(b).Ok? && |Rows(CountOf(b).value, table)| ==
      Yield(BuildOf(b).value, Ordered(BuildOf(b).value, table, sort))
  {
    ToOneNoRepeats(BuildOf(b).value, table);
    CountExactly(b, table, sort);
  }

  /** The total of a listing is counted without the joins that only add columns. When those are
      to-one and neither the other joins nor the filters look at them, it is the number of rows
      of the full query. */
  lemma TotalWithoutJoins(q: Query, shown: seq<Join>, used: seq<Join>, table: seq<Record>, names: set<string>)
    requires q.joins == shown + used
    requires forall i :: 0 <= i < |shown| ==> ToOne(shown[i]) && shown[i].name in names
    requires forall i :: 0 <= i < |used| ==> JoinIgnores(used[i], names)
    requires forall i :: 0 <= i < |q.filters| ==> FilterIgnores(q.filters[i], names)
    ensures Stripped(Rows(q, table), names) == Rows(q.(joins := used), table)
    ensures |Rows(q, table)| == |Rows(q.(joins := used), table)|
  {
    var base := TableRows(table);
    JoinAllAppend(base, shown, used);
    DropAll(base, shown, names);
    JoinAllStripped(JoinAll(base, shown), used, names);
    assert Stripped(base, names) == base by {
      forall i | 0 <= i < |base| ensures Strip(base[i], names) == base[i] {
        assert base[i].others - names == base[i].others;
      }
    }
    WhereStripped(JoinAll(base, q.joins), q.filters, names);
  }

  // ---------------------------------------------------------------- pages

  const THRESHOLD := 500000

  function Min(a: int, b: int): int {
    if a < b then a else b
  }

  /** OFFSET and LIMIT. */
  function Window<T>(rows: seq<T>, offset: nat, size: nat): seq<T> {
    rows[Min(offset, |rows|)..Min(offset + size, |rows|)]
  }

  /** The rows numbered `lo` to `hi` when the first row has the number `n`. */
  function Between<T>(rows: seq<T>, n: int, lo: int, hi: int): seq<T>
    decreases |rows|
  {
    if rows == [] then []
    else (if lo <= n <= hi then [rows[0]] else []) + Between(rows[1..], n + 1, lo, hi)
  }

  /** A page of the rows. The database refuses negative offsets and limits. */
  function Page<T>(rows: seq<T>, size: int, number: int, threshold: int): Result<seq<T>, ()> {
    var offset := (number - 1) * size;
    if offset >= threshold then Ok(Between(rows, 1, offset + 1, offset + size))
    else if offset < 0 || size < 0 then Err(())
    else Ok(Window(rows, offset, size))
  }

  /** `i` pushed into the range 0..n. */
  function Inside(i: int, n: nat): nat {
    if i < 0 then 0 else Min(i, n)
  }

  lemma InsideTail(x: int, n: nat)
    ensures Inside(x + 1, n + 1) == if x < 0 then 0 else Inside(x, n) + 1
    ensures x < 0 ==> Inside(x, n) == 0
  {}

  lemma SliceTail<T>(rows: seq<T>, i: nat, k: nat)
    requires i <= k < |rows|
    ensures rows[1..][i..k] == rows[i + 1..k + 1]
  {}

  lemma SliceHead<T>(rows: seq<T>, k: nat)
    requires k < |rows|
    ensures [rows[0]] + rows[1..][0..k] == rows[0..k + 1]
  {}

  /** The slice of the rows numbered `lo` to `hi`, when the first row has the number `n`. */
  function Numbered<T>(rows: seq<T>, n: int, lo: int, hi: int): seq<T>
    requires lo <= hi + 1
  {
    rows[Inside(lo - n, |rows|)..Inside(hi + 1 - n, |rows|)]
  }

  lemma NumberedBefore<T>(rows: seq<T>, n: int, lo: int, hi: int)
    requires rows != [] && n < lo <= hi + 1
    ensures Numbered(rows, n, lo, hi) == Numbered(rows[1..], n + 1, lo, hi)
  {
    var i, k := Inside(lo - (n + 1), |rows| - 1), Inside(hi + 1 - (n + 1), |rows| - 1);
    InsideTail(lo - n - 1, |rows| - 1);
    InsideTail(hi - n, |rows| - 1);
    SliceTail(rows, i, k);
  }

  lemma NumberedIn<T>(rows: seq<T>, n: int, lo: int, hi: int)
    requires rows != [] && lo <= n <= hi
    ensures Numbered(rows, n, lo, hi) == [rows[0]] + Numbered(rows[1..], n + 1, lo, hi)
  {
    InsideTail(lo - n - 1, |rows| - 1);
    InsideTail(hi - n, |rows| - 1);
    SliceHead(rows, Inside(hi - n, |rows| - 1));
  }

  lemma NumberedAfter<T>(rows: seq<T>, n: int, lo: int, hi: int)
    requires lo <= hi + 1 && hi < n
    ensures Numbered(rows, n, lo, hi) == []
  {}

  /** Filtering on the row numbers is slicing. */
  lemma {:induction false} BetweenIsWindow<T>(rows: seq<T>, n: int, lo: int, hi: int)
    requires lo <= hi + 1
    ensures Between(rows, n, lo, hi) == Numbered(rows, n, lo, hi)
    decreases |rows|
  {
    if rows != [] {
      BetweenIsWindow(rows[1..], n + 1, lo, hi);
      if n < lo {
        NumberedBefore(rows, n, lo, hi);
      } else if n <= hi {
        NumberedIn(rows, n, lo, hi);
      } else {
        NumberedAfter(rows, n, lo, hi);
        NumberedAfter(rows[1..], n + 1, lo, hi);
      }
    }
  }

  /** Both ways of reading a page return the same rows, wherever the threshold is. */
  lemma PageIsWindow<T>(rows: seq<T>, size: nat, number: nat, threshold: int)
    requires number >= 1
    ensures 0 <= (number - 1) * size
    ensures Page(rows, size, number, threshold) == Ok(Window(rows, (number - 1) * size, size))
  {
    NextMultiple(number, size);
    var offset := (number - 1) * size;
    BetweenIsWindow(rows, 1, offset + 1, offset + size);
  }

  /** The pages 1 to `k`, one after the other. */
  function Pages<T>(rows: seq<T>, size: nat, threshold: int, k: nat): seq<T> {
    if k == 0 then []
    else
      Pages(rows, size, threshold, k - 1) +
      match Page(rows, size, k, threshold) case Ok(page) => page case Err(_) => []
  }

  lemma WindowExtends<T>(rows: seq<T>, offset: nat, size: nat)
    ensures rows[..Min(offset, |rows|)] + Window(rows, offset, size) == rows[..Min(offset + size, |rows|)]
  {}

  lemma NextMultiple(k: nat, size: nat)
    requires k > 0
    ensures 0 <= (k - 1) * size && k * size == (k - 1) * size + size
  {}

  /** The pages tile the rows: nothing is left out and nothing is repeated. */
  lemma {:induction false} PagesTile<T>(rows: seq<T>, size: nat, threshold: int, k: nat)
    ensures 0 <= k * size
    ensures Pages(rows, size, threshold, k) == rows[..Min(k * size, |rows|)]
  {
    if k > 0 {
      NextMultiple(k, size);
      PagesTile(rows, size, threshold, k - 1);
      PageIsWindow(rows, size, k, threshold);
      WindowExtends(rows, (k - 1) * size, size);
    }
  }

  /** Enough pages hold all rows. */
  lemma PagesHoldAll<T>(rows: seq<T>, size: nat, threshold: int, k: nat)
    requires k * size >= |rows|
    ensures Pages(rows, size, threshold, k) == rows
  {
    PagesTile(rows, size, threshold, k);
  }

  /** The pages of a listing hold as many rows as its total says. */
  lemma TotalIsAllPages(
    q: Query, shown: seq<Join>, used: seq<Join>, table: seq<Record>, names: set<string>,
    sort: (seq<Order>, seq<Joined>) -> seq<Joined>, size: nat, threshold: int, k: nat)
    requires Sorting(sort) && q.joins == shown + used
    requires forall i :: 0 <= i < |shown| ==> ToOne(shown[i]) && shown[i].name in names
    requires forall i :: 0 <= i < |used| ==> JoinIgnores(used[i], names)
    requires forall i :: 0 <= i < |q.filters| ==> FilterIgnores(q.filters[i], names)
    requires k * size >= |Rows(Query([], used, [], q.filters, []), table)|
    ensures |Pages(Ordered(q, table, sort), size, threshold, k)| == |Rows(Query([], used, [], q.filters, []), table)|
  {
    TotalWithoutJoins(q, shown, used, table, names);
    SortedRows(q, table, sort);
    PagesHoldAll(Ordered(q, table, sort), size, threshold, k);
  }

  /** How many records the pages 1 to `k` show when each keeps one row per record. */
  function RecordsShown(rows: seq<Joined>, size: nat, threshold: int, k: nat): nat {
    if k == 0 then 0
    else
      RecordsShown(rows, size, threshold, k - 1) +
      match Page(rows, size, k, threshold) case Ok(page) => |Objects(page)| case Err(_) => 0
  }

  lemma {:induction false} RecordsAreRows(rows: seq<Joined>, size: nat, threshold: int, k: nat)
    requires NoRepeats(rows)
    ensures RecordsShown(rows, size, threshold, k) == |Pages(rows, size, threshold, k)|
  {
    if k > 0 {
      RecordsAreRows(rows, size, threshold, k - 1);
      PageIsWindow(rows, size, k, threshold);
      WindowNoRepeats(rows, (k - 1) * size, size);
      ObjectsSize(Window(rows, (k - 1) * size, size));
    }
  }

  lemma WindowNoRepeats(rows: seq<Joined>, offset: nat, size: nat)
    requires NoRepeats(rows)
    ensures NoRepeats(Window(rows, offset, size))
  {
    var start := Min(offset, |rows|);
    var w := Window(rows, offset, size);
    assert forall i :: 0 <= i < |w| ==> w[i] == rows[start + i];
  }

  /** When the joins the filters look at are to-one as well, keeping one row per record on each
      page loses none: the pages show as many records as the total says. */
  lemma TotalIsRecords(
    q: Query, shown: seq<Join>, used: seq<Join>, table: seq<Record>, names: set<string>,
    sort: (seq<Order>, seq<Joined>) -> seq<Joined>, size: nat, threshold: int, k: nat)
    requires Sorting(sort) && q.joins == shown + used && DistinctRecords(table)
    requires forall i :: 0 <= i < |shown| ==> ToOne(shown[i]) && shown[i].name in names
    requires forall i :: 0 <= i < |used| ==> ToOne(used[i]) && JoinIgnores(used[i], names)
    requires forall i :: 0 <= i < |q.filters| ==> FilterIgnores(q.filters[i], names)
    requires k * size >= |Rows(Query([], used, [], q.filters, []), table)|
    ensures RecordsShown(Ordered(q, table, sort), size, threshold, k) ==
      |Rows(Query([], used, [], q.filters, []), table)|
  {
    TotalIsAllPages(q, shown, used, table, names, sort, size, threshold, k);
    ToOneNoRepeats(q, table);
    SortedRows(q, table, sort);
    ObjectsSize(Rows(q, table));
    ObjectsSize(Ordered(q, table, sort));
    RecordsAreRows(Ordered(q, table, sort), size, threshold, k);
  }

  // ---------------------------------------------------------------- the restart loop

  type Server = string

  datatype Action = Stop(server: Server) | Copy(server: Server) | Start(server: Server) | Restart(server: Server)

  /** What is attempted on one server: an action that fails ends the attempt, not the loop. */
  function Attempts(s: Server, redeploy: bool, fails: Action -> bool): seq<Action> {
    [Stop(s)] +
    if fails(Stop(s)) then []
    else if !redeploy then [Restart(s)]
    else [Copy(s)] + if fails(Copy(s)) then [] else [Start(s)]
  }

  function AllAttempts(servers: seq<Server>, redeploy: bool, fails: Action -> bool): seq<Action>
    decreases |servers|
  {
    if servers == [] then []
    else AllAttempts(servers[..|servers| - 1], redeploy, fails) + Attempts(servers[|servers| - 1], redeploy, fails)
  }

  const BATCH := 10

  method AttemptServer(s: Server, redeploy: bool, fails: Action -> bool) returns (attempted: seq<Action>)
    ensures attempted == Attempts(s, redeploy, fails)
    ensures fails(Stop(s)) ==> attempted == [Stop(s)]
    ensures !fails(Stop(s)) && !redeploy ==> attempted == [Stop(s), Restart(s)]
    ensures !fails(Stop(s)) && redeploy ==> attempted == if fails(Copy(s)) then [Stop(s), Copy(s)]
                                                         else [Stop(s), Copy(s), Start(s)]
  {
    attempted := [Stop(s)];
    if !fails(Stop(s)) {
      if redeploy {
        attempted := attempted + [Copy(s)];
        if !fails(Copy(s)) {
          attempted := attempted + [Start(s)];
        }
      } else {
        attempted := attempted + [Restart(s)];
      }
    }
  }

  lemma {:induction false} AllAttemptsAppend(a: seq<Server>, b: seq<Server>, redeploy: bool, fails: Action -> bool)
    ensures AllAttempts(a + b, redeploy, fails) == AllAttempts(a, redeploy, fails) + AllAttempts(b, redeploy, fails)
    decreases |b|
  {
    if b == [] {
      assert a + b == a;
    } else {
      var n := |b| - 1;
      assert (a + b)[..|a + b| - 1] == a + b[..n];
      AllAttemptsAppend(a, b[..n], redeploy, fails);
    }
  }

  /** The servers that are stopped, in order. */
  function Stopped(actions: seq<Action>): seq<Server>
    decreases |actions|
  {
    if actions == [] then []
    else
      var last := actions[|actions| - 1];
      Stopped(actions[..|actions| - 1]) + if last.Stop? then [last.server] else []
  }

  lemma {:induction false} StoppedAppend(a: seq<Action>, b: seq<Action>)
    ensures Stopped(a + b) == Stopped(a) + Stopped(b)
    decreases |b|
  {
    if b == [] {
      assert a + b == a;
    } else {
      assert (a + b)[..|a + b| - 1] == a + b[..|b| - 1];
      StoppedAppend(a, b[..|b| - 1]);
    }
  }

  lemma StoppedOnce(s: Server, redeploy: bool, fails: Action -> bool)
    ensures Stopped(Attempts(s, redeploy, fails)) == [s]
  {
    var rest := Attempts(s, redeploy, fails)[1..];
    assert Attempts(s, redeploy, fails) == [Stop(s)] + rest;
    StoppedAppend([Stop(s)], rest);
    assert [Stop(s)][..0] == [];
    if rest != [] {
      assert rest[..|rest| - 1] == if |rest| == 2 then [rest[0]] else [];
      assert [Copy(s)][..0] == [];
    }
  }

  /** Every server is stopped exactly once, in query order, whatever fails on the way. */
  lemma {:induction false} AllStopped(servers: seq<Server>, redeploy: bool, fails: Action -> bool)
    ensures Stopped(AllAttempts(servers, redeploy, fails)) == servers
    decreases |servers|
  {
    if servers != [] {
      var n := |servers| - 1;
      AllStopped(servers[..n], redeploy, fails);
      StoppedAppend(AllAttempts(servers[..n], redeploy, fails), Attempts(servers[n], redeploy, fails));
      StoppedOnce(servers[n], redeploy, fails);
      assert servers == servers[..n] + [servers[n]];
    }
  }

  method AttemptPage(records: seq<Server>, redeploy: bool, fails: Action -> bool) returns (attempted: seq<Action>)
    ensures attempted == AllAttempts(records, redeploy, fails)
  {
    attempted := [];
    for k := 0 to |records|
      invariant attempted == AllAttempts(records[..k], redeploy, fails)
    {
      assert records[..k + 1][..k] == records[..k];
      var one := AttemptServer(records[k], redeploy, fails);
      attempted := attempted + one;
    }
    assert records[..|records|] == records;
  }

  /** scheduler_job_servers_restart over the servers its query selects: each is attempted once,
      in the order of the query. */
  method RestartServers(servers: seq<Server>, redeploy: bool, fails: Action -> bool)
    returns (r: Result<seq<Action>, ()>)
    ensures r == if servers == [] then Err(()) else Ok(AllAttempts(servers, redeploy, fails))
    ensures r.Ok? ==> Stopped(r.value) == servers
  {
    AllStopped(servers, redeploy, fails);
    var count := |servers|;
    if count == 0 {
      return Err(());
    }
    var attempted: seq<Action> := [];
    var page := 1;
    assert servers[..0] == [];
    while (page - 1) * BATCH < count
      invariant page >= 1
      invariant attempted == AllAttempts(servers[..Min((page - 1) * BATCH, count)], redeploy, fails)
      decreases count - (page - 1) * BATCH
    {
      var done := (page - 1) * BATCH;
      PageIsWindow(servers, BATCH, page, THRESHOLD);
      var records := Page(servers, BATCH, page, THRESHOLD).value;
      var more := AttemptPage(records, redeploy, fails);
      AllAttemptsAppend(servers[..done], records, redeploy, fails);
      WindowExtends(servers, done, BATCH);
      attempted := attempted + more;
      page := page + 1;
    }
    assert servers[..count] == servers;
    r := Ok(attempted);
  }
}
