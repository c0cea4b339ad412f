/** The filter compiler: nested dictionaries and lists of column tests become SQL conditions.
    The compiled conditions are compared, under SQL's three-valued logic, with what the
    dictionaries say when read directly. */
module Filters {
  import opened Wrappers

  // ---------------------------------------------------------------- values and truth

  datatype Value = Null | Num(n: int) | Text(s: string)

  datatype Operand = One(v: Value) | Many(vs: seq<Value>)

  datatype Truth = Yes | No | Unknown

  function Not(t: Truth): Truth {
    match t
    case Yes => No
    case No => Yes
    case Unknown => Unknown
  }

  function Both(a: Truth, b: Truth): Truth {
    if a == No || b == No then No else if a == Unknown || b == Unknown then Unknown else Yes
  }

  function Either(a: Truth, b: Truth): Truth {
    Not(Both(Not(a), Not(b)))
  }

  function FromBool(b: bool): Truth {
    if b then Yes else No
  }

  type Row = string -> Value

  /** The database's ordering of values, and the column operators not spelled out below. */
  datatype Database = Database(less: (Value, Value) -> bool, other: (string, Value, Operand) -> Truth)

  /** The columns of a table and the operator names its columns have as methods. */
  datatype Entity = Entity(columns: set<string>, methods: set<string>)

  const ORDERINGS := {"lt", "lte", "le", "gt", "gte", "ge"}

  function Equal(x: Value, v: Value): Truth {
    if v == Null then FromBool(x == Null) else if x == Null then Unknown else FromBool(x == v)
  }

  function Member(x: Value, vs: seq<Value>): Truth {
    if vs == [] then No
    else if x == Null then Unknown
    else if x in vs then Yes
    else if Null in vs then Unknown
    else No
  }

  /** `eq` and `ne` with a null operand are IS NULL and IS NOT NULL; all other comparisons of
      a null are unknown. */
  function Apply(db: Database, op: string, x: Value, a: Operand): Truth {
    if a.One? && op == "eq" then Equal(x, a.v)
    else if a.One? && op == "ne" then Not(Equal(x, a.v))
    else if a.One? && op in ORDERINGS then
      if x == Null || a.v == Null then Unknown
      else if op == "lt" then FromBool(db.less(x, a.v))
      else if op == "gt" then FromBool(db.less(a.v, x))
      else if op == "lte" || op == "le" then FromBool(!db.less(a.v, x))
      else FromBool(!db.less(x, a.v))
    else if a == One(Null) && op == "is_" then FromBool(x == Null)
    else if a == One(Null) && (op == "isnot" || op == "is_not") then FromBool(x != Null)
    else if a.Many? && op == "in_" then Member(x, a.vs)
    else if a.Many? && op == "not_in" then Not(Member(x, a.vs))
    else db.other(op, x, a)
  }

  /** On numbers, in a database that orders them as numbers, the operators mean what they say. */
  lemma OperatorsOnNumbers(db: Database, a: int, b: int)
    requires forall m, n :: db.less(Num(m), Num(n)) <==> m < n
    ensures Apply(db, "lt", Num(a), One(Num(b))) == FromBool(a < b)
    ensures Apply(db, "lte", Num(a), One(Num(b))) == FromBool(a <= b)
    ensures Apply(db, "le", Num(a), One(Num(b))) == FromBool(a <= b)
    ensures Apply(db, "gt", Num(a), One(Num(b))) == FromBool(a > b)
    ensures Apply(db, "gte", Num(a), One(Num(b))) == FromBool(a >= b)
    ensures Apply(db, "ge", Num(a), One(Num(b))) == FromBool(a >= b)
    ensures Apply(db, "eq", Num(a), One(Num(b))) == FromBool(a == b)
    ensures Apply(db, "ne", Num(a), One(Num(b))) == FromBool(a != b)
  {}

  /** A null is equal to null and to nothing else; compared in any other way it is unknown. */
  lemma OperatorsOnNull(db: Database, v: Value, op: string)
    requires op in ["lt", "lte", "le", "gt", "gte", "ge"]
    ensures Apply(db, "eq", v, One(Null)) == FromBool(v == Null) && Apply(db, "ne", v, One(Null)) == FromBool(v != Null)
    ensures Apply(db, "is_", v, One(Null)) == FromBool(v == Null)
    ensures Apply(db, "isnot", v, One(Null)) == FromBool(v != Null)
    ensures Apply(db, "is_not", v, One(Null)) == FromBool(v != Null)
    ensures v != Null ==> Apply(db, "eq", Null, One(v)) == Unknown && Apply(db, "ne", Null, One(v)) == Unknown
    ensures Apply(db, op, Null, One(v)) == Unknown && Apply(db, op, v, One(Null)) == Unknown
  {}

  /** The identity tests with any other operand are the database's. */
  lemma OtherIdentities(db: Database, v: Value, a: Operand, op: string)
    requires a != One(Null) && op in ["is_", "isnot", "is_not"]
    ensures Apply(db, op, v, a) == db.other(op, v, a)
  {}

  /** `in_` is yes for a listed value; with a null about, it is never no, unless the list is empty;
      `not_in` is its negation. */
  lemma OperatorsOnLists(db: Database, v: Value, vs: seq<Value>)
    ensures Apply(db, "in_", v, Many(vs)) == Yes <==> v != Null && v in vs
    ensures Apply(db, "in_", v, Many(vs)) == No <==> vs == [] || (v != Null && v !in vs && Null !in vs)
    ensures Apply(db, "not_in", v, Many(vs)) == Yes <==> Apply(db, "in_", v, Many(vs)) == No
    ensures Apply(db, "not_in", v, Many(vs)) == No <==> Apply(db, "in_", v, Many(vs)) == Yes
  {}

  // ---------------------------------------------------------------- conditions

  datatype Test = Test(op: string, operand: Operand)

  datatype Cond = On(column: string, test: Test) | All(parts: seq<Cond>) | Any(parts: seq<Cond>)

  /** Empty conjunctions and disjunctions are left out of the SQL text, so they combine as if
      they were not there. */
  function Combine(any: bool, a: Option<Truth>, b: Option<Truth>): Option<Truth> {
    if a == None then b
    else if b == None then a
    else Some(if any then Either(a.value, b.value) else Both(a.value, b.value))
  }

  function Eval(db: Database, row: Row, c: Cond): Option<Truth>
    decreases c
  {
    match c
    case On(column, test) => Some(Apply(db, test.op, row(column), test.operand))
    case All(parts) => EvalEach(db, row, parts, false)
    case Any(parts) => EvalEach(db, row, parts, true)
  }

  function EvalEach(db: Database, row: Row, cs: seq<Cond>, any: bool): Option<Truth>
    decreases cs
  {
    if cs == [] then None else Combine(any, Eval(db, row, cs[0]), EvalEach(db, row, cs[1..], any))
  }

  /** WHERE keeps the rows on which the conditions are true; without conditions it keeps all. */
  predicate Selects(db: Database, row: Row, cs: seq<Cond>) {
    EvalEach(db, row, cs, false) in {None, Some(Yes)}
  }

  lemma CombineAssociative(any: bool, a: Option<Truth>, b: Option<Truth>, c: Option<Truth>)
    ensures Combine(any, a, Combine(any, b, c)) == Combine(any, Combine(any, a, b), c)
  {}

  lemma {:induction false} EvalAppend(db: Database, row: Row, a: seq<Cond>, b: seq<Cond>, any: bool)
    ensures EvalEach(db, row, a + b, any) == Combine(any, EvalEach(db, row, a, any), EvalEach(db, row, b, any))
    decreases |a|
  {
    if a == [] {
      assert a + b == b;
    } else {
      assert (a + b)[1..] == a[1..] + b;
      EvalAppend(db, row, a[1..], b, any);
      CombineAssociative(any, Eval(db, row, a[0]), EvalEach(db, row, a[1..], any), EvalEach(db, row, b, any));
    }
  }

  // ---------------------------------------------------------------- filters and what they say

  /** One filter parameter: a key with its value, or a member of a parameter list.
      - `Nested`: the key `or_` or `and_` with its parameters;
      - `Tests`: a column with an operator map, `Is`: a column with a plain value;
      - `Group`: a dictionary standing in a list;
      - `Raw`: a ready-made condition;
      - `Malformed`: nested parameters that are neither a dictionary nor a list.
      A dictionary of parameters is the sequence of its entries. */
  datatype Filter =
    | Nested(any: bool, params: seq<Filter>)
    | Tests(column: string, tests: seq<Test>)
    | Is(column: string, operand: Operand)
    | Group(entries: seq<Filter>)
    | Raw(cond: Cond)
    | Malformed

  function OnEach(column: string, tests: seq<Test>): (cs: seq<Cond>)
    ensures |cs| == |tests|
  {
    seq(|tests|, i requires 0 <= i < |tests| => On(column, tests[i]))
  }

  /** What a parameter says: an operator map holds when all its tests do, a dictionary in a
      list when all its entries do. */
  function SaysOne(db: Database, row: Row, f: Filter): Option<Truth>
    decreases f
  {
    match f
    case Nested(any, params) => Says(db, row, params, any)
    case Tests(column, tests) => EvalEach(db, row, OnEach(column, tests), false)
    case Is(column, operand) => Some(Apply(db, "eq", row(column), operand))
    case Group(entries) => Says(db, row, entries, false)
    case Raw(cond) => Eval(db, row, cond)
    case Malformed => None
  }

  function Says(db: Database, row: Row, fs: seq<Filter>, any: bool): Option<Truth>
    decreases fs
  {
    if fs == [] then None else Combine(any, SaysOne(db, row, fs[0]), Says(db, row, fs[1..], any))
  }

  // ---------------------------------------------------------------- the compiler

  datatype Error = NoSuchColumn | NoSuchOperator | NotAllowed

  function TestError(t: Entity, column: string, test: Test): Option<Error> {
    if column !in t.columns then Some(NoSuchColumn)
    else if test.op in ORDERINGS + {"eq", "ne"} then
      if test.op in ORDERINGS && test.operand == One(Null) then Some(NotAllowed) else None
    else if test.op !in t.methods then Some(NoSuchOperator)
    else None
  }

  /** The tests of one column, or the first error among them. */
  function CompileTests(t: Entity, column: string, tests: seq<Test>): Result<seq<Cond>, Error>
    decreases |tests|
  {
    if tests == [] then Ok([])
    else
      var n := |tests| - 1;
      match CompileTests(t, column, tests[..n])
      case Err(e) => Err(e)
      case Ok(cs) =>
        match TestError(t, column, tests[n])
        case Some(e) => Err(e)
        case None => Ok(cs + [On(column, tests[n])])
  }

  /** Of a dictionary in a list only the first entry is compiled. */
  function CompileOne(t: Entity, f: Filter): Result<seq<Cond>, Error>
    decreases f
  {
    match f
    case Nested(any, params) =>
      (match Compile(t, params)
       case Ok(cs) => Ok([if any then Any(cs) else All(cs)])
       case Err(error) => Err(error))
    case Tests(column, tests) => if tests == [] then Err(NotAllowed) else CompileTests(t, column, tests)
    case Is(column, operand) => CompileTests(t, column, [Test("eq", operand)])
    case Group(entries) => if entries == [] then Err(NotAllowed) else CompileOne(t, entries[0])
    case Raw(cond) => Ok([cond])
    case Malformed => Err(NotAllowed)
  }

  function Compile(t: Entity, fs: seq<Filter>): Result<seq<Cond>, Error>
    decreases fs
  {
    if fs == [] then Ok([])
    else
      match CompileOne(t, fs[0])
      case Err(e) => Err(e)
      case Ok(cs) =>
        match Compile(t, fs[1..])
        case Err(e) => Err(e)
        case Ok(rest) => Ok(cs + rest)
  }

  lemma {:induction false} CompiledTests(t: Entity, column: string, tests: seq<Test>)
    ensures CompileTests(t, column, tests).Ok? ==> CompileTests(t, column, tests) == Ok(OnEach(column, tests))
    ensures CompileTests(t, column, tests).Ok? <==> forall i :: 0 <= i < |tests| ==>
      TestError(t, column, tests[i]) == None
    decreases |tests|
  {
    if tests != [] {
      var n := |tests| - 1;
      CompiledTests(t, column, tests[..n]);
      assert OnEach(column, tests) == OnEach(column, tests[..n]) + [On(column, tests[n])];
    }
  }

  lemma {:induction false} CompileAppend(t: Entity, a: seq<Filter>, b: seq<Filter>)
    ensures Compile(t, a + b) ==
      if Compile(t, a).Err? then Compile(t, a)
      else if Compile(t, b).Err? then Compile(t, b)
      else Ok(Compile(t, a).value + Compile(t, b).value)
    decreases |a|
  {
    if a == [] {
      assert a + b == b;
      if Compile(t, b).Ok? {
        assert [] + Compile(t, b).value == Compile(t, b).value;
      }
    } else {
      assert (a + b)[1..] == a[1..] + b;
      CompileAppend(t, a[1..], b);
      if CompileOne(t, a[0]).Ok? && Compile(t, a[1..]).Ok? && Compile(t, b).Ok? {
        assert CompileOne(t, a[0]).value + (Compile(t, a[1..]).value + Compile(t, b).value)
          == CompileOne(t, a[0]).value + Compile(t, a[1..]).value + Compile(t, b).value;
      }
    }
  }

  lemma CompileSingle(t: Entity, f: Filter)
    ensures Compile(t, [f]) == CompileOne(t, f)
  {
    if CompileOne(t, f).Ok? {
      assert CompileOne(t, f).value + [] == CompileOne(t, f).value;
    }
  }

  lemma CompileSingleTest(t: Entity, column: string, test: Test)
    ensures CompileTests(t, column, [test]) ==
      if TestError(t, column, test).Some? then Err(TestError(t, column, test).value) else Ok([On(column, test)])
  {
    assert CompileTests(t, column, [test][..0]) == Ok([]);
    assert [] + [On(column, test)] == [On(column, test)];
  }

  /** A test the compiler takes: its column is known, and its operator is an equality, an ordering of
      something not null, or a method of the column. */
  predicate Takes(t: Entity, column: string, test: Test) {
    column in t.columns &&
    match test.op
    case "eq" => true
    case "ne" => true
    case "lt" => test.operand != One(Null)
    case "lte" => test.operand != One(Null)
    case "le" => test.operand != One(Null)
    case "gt" => test.operand != One(Null)
    case "gte" => test.operand != One(Null)
    case "ge" => test.operand != One(Null)
    case op => op in t.methods
  }

  lemma TestTaken(t: Entity, column: string, test: Test)
    ensures TestError(t, column, test) == None <==> Takes(t, column, test)
    ensures TestError(t, column, test) == Some(NoSuchColumn) <==> column !in t.columns
    ensures TestError(t, column, test) == Some(NotAllowed) ==> test.operand == One(Null)
  {}

  /** A parameter the compiler takes: every test it compiles is one, no operator map and no
      dictionary of a list is empty, and nothing is malformed. */
  predicate Compilable(t: Entity, f: Filter)
    decreases f
  {
    match f
    case Nested(_, params) => forall i :: 0 <= i < |params| ==> Compilable(t, params[i])
    case Tests(column, tests) => tests != [] && forall i :: 0 <= i < |tests| ==> Takes(t, column, tests[i])
    case Is(column, _) => column in t.columns
    case Group(entries) => entries != [] && Compilable(t, entries[0])
    case Raw(_) => true
    case Malformed => false
  }

  lemma {:induction false} OneCompilesExactly(t: Entity, f: Filter)
    ensures CompileOne(t, f).Ok? <==> Compilable(t, f)
    decreases f
  {
    match f
    case Nested(any, params) => CompilesExactly(t, params);
    case Tests(column, tests) =>
      CompiledTests(t, column, tests);
      forall i | 0 <= i < |tests| ensures TestError(t, column, tests[i]) == None <==> Takes(t, column, tests[i]) {
        TestTaken(t, column, tests[i]);
      }
    case Is(column, operand) => CompileSingleTest(t, column, Test("eq", operand));
    case Group(entries) =>
      if entries != [] {
        OneCompilesExactly(t, entries[0]);
      }
    case _ =>
  }

  /** Exactly the filters of such parameters compile. */
  lemma {:induction false} CompilesExactly(t: Entity, fs: seq<Filter>)
    ensures Compile(t, fs).Ok? <==> forall i :: 0 <= i < |fs| ==> Compilable(t, fs[i])
    decreases fs
  {
    if fs != [] {
      OneCompilesExactly(t, fs[0]);
      CompilesExactly(t, fs[1..]);
      if Compile(t, fs).Ok? {
        forall i | 0 <= i < |fs| ensures Compilable(t, fs[i]) {
          assert i > 0 ==> fs[i] == fs[1..][i - 1];
        }
      }
      if forall i :: 0 <= i < |fs| ==> Compilable(t, fs[i]) {
        forall i | 0 <= i < |fs[1..]| ensures Compilable(t, fs[1..][i]) {
          assert fs[1..][i] == fs[i + 1];
        }
      }
    }
  }

  /** _transform_filter_parameter. */
  method TransformFilterParameter(t: Entity, f: Filter) returns (r: Result<seq<Cond>, Error>)
    ensures r == CompileOne(t, f)
    ensures r.Ok? <==> Compilable(t, f)
    decreases f
  {
    OneCompilesExactly(t, f);
    match f {
      case Group(entries) =>
        if entries == [] {
          return Err(NotAllowed);
        }
        r := TransformFilterParameter(t, entries[0]);
      case Raw(cond) => r := Ok([cond]);
      case Malformed => r := Err(NotAllowed);
      case Nested(any, params) =>
        r := ParseFilterParams(t, params);
        if r.Ok? {
          r := Ok([if any then Any(r.value) else All(r.value)]);
        }
      case Is(column, operand) =>
        var test := Test("eq", operand);
        CompileSingleTest(t, column, test);
        var error := TestError(t, column, test);
        r := if error.Some? then Err(error.value) else Ok([On(column, test)]);
      case Tests(column, tests) =>
        if tests == [] {
          return Err(NotAllowed);
        }
        var transformed := [];
        for k := 0 to |tests|
          invariant CompileTests(t, column, tests[..k]) == Ok(transformed)
        {
          assert tests[..k + 1][..k] == tests[..k];
          var error := TestError(t, column, tests[k]);
          if error.Some? {
            StopsAtError(t, column, tests, k + 1);
            return Err(error.value);
          }
          transformed := transformed + [On(column, tests[k])];
        }
        assert tests[..|tests|] == tests;
        r := Ok(transformed);
    }
  }

  lemma {:induction false} StopsAtError(t: Entity, column: string, tests: seq<Test>, k: nat)
    requires k <= |tests| && CompileTests(t, column, tests[..k]).Err?
    ensures CompileTests(t, column, tests) == CompileTests(t, column, tests[..k])
    decreases |tests|
  {
    if k < |tests| {
      assert tests[..|tests| - 1][..k] == tests[..k];
      StopsAtError(t, column, tests[..|tests| - 1], k);
    } else {
      assert tests[..k] == tests;
    }
  }

  /** parse_filter_params. */
  method ParseFilterParams(t: Entity, fs: seq<Filter>) returns (r: Result<seq<Cond>, Error>)
    ensures r == Compile(t, fs)
    ensures r.Ok? <==> forall i :: 0 <= i < |fs| ==> Compilable(t, fs[i])
    decreases fs
  {
    CompilesExactly(t, fs);
    var filters := [];
    for k := 0 to |fs|
      invariant Compile(t, fs[..k]) == Ok(filters)
    {
      var part := TransformFilterParameter(t, fs[k]);
      assert fs[..k + 1] == fs[..k] + [fs[k]];
      CompileAppend(t, fs[..k], [fs[k]]);
      CompileSingle(t, fs[k]);
      if part.Err? {
        assert fs == fs[..k + 1] + fs[k + 1..];
        CompileAppend(t, fs[..k + 1], fs[k + 1..]);
        return part;
      }
      filters := filters + part.value;
    }
    assert fs[..|fs|] == fs;
    r := Ok(filters);
  }

  // ---------------------------------------------------------------- what is compiled

  function Singles(column: string, tests: seq<Test>): seq<Filter> {
    seq(|tests|, i requires 0 <= i < |tests| => Tests(column, [tests[i]]))
  }

  /** The parameters a filter parameter amounts to among disjuncts (`any`) or conjuncts. */
  function Rewritten(f: Filter, any: bool): seq<Filter>
    decreases f
  {
    match f
    case Nested(inner, params) => [Nested(inner, Normalised(params, inner))]
    case Tests(column, tests) => if any then Singles(column, tests) else [f]
    case Group(entries) => if entries == [] then [] else Rewritten(entries[0], any)
    case _ => [f]
  }

  function Normalised(fs: seq<Filter>, any: bool): seq<Filter>
    decreases fs
  {
    if fs == [] then [] else Rewritten(fs[0], any) + Normalised(fs[1..], any)
  }

  lemma {:induction false} SaysAppend(db: Database, row: Row, a: seq<Filter>, b: seq<Filter>, any: bool)
    ensures Says(db, row, a + b, any) == Combine(any, Says(db, row, a, any), Says(db, row, b, any))
    decreases |a|
  {
    if a == [] {
      assert a + b == b;
    } else {
      assert (a + b)[1..] == a[1..] + b;
      SaysAppend(db, row, a[1..], b, any);
      CombineAssociative(any, SaysOne(db, row, a[0]), Says(db, row, a[1..], any), Says(db, row, b, any));
    }
  }

  lemma SingleTestSays(db: Database, row: Row, column: string, test: Test, any: bool)
    ensures EvalEach(db, row, OnEach(column, [test]), any) == Some(Apply(db, test.op, row(column), test.operand))
  {
    var cs := OnEach(column, [test]);
    assert cs[1..] == [];
    assert EvalEach(db, row, cs[1..], any) == None;
  }

  lemma {:induction false} SinglesSay(db: Database, row: Row, column: string, tests: seq<Test>, any: bool)
    ensures Says(db, row, Singles(column, tests), any) == EvalEach(db, row, OnEach(column, tests), any)
    decreases |tests|
  {
    if tests != [] {
      assert Singles(column, tests)[1..] == Singles(column, tests[1..]);
      assert OnEach(column, tests)[1..] == OnEach(column, tests[1..]);
      SingleTestSays(db, row, column, tests[0], false);
      SinglesSay(db, row, column, tests[1..], any);
    }
  }

  lemma {:induction false} CompiledOne(t: Entity, db: Database, row: Row, f: Filter, any: bool)
    requires CompileOne(t, f).Ok?
    ensures EvalEach(db, row, CompileOne(t, f).value, any) == Says(db, row, Rewritten(f, any), any)
    decreases f
  {
    match f {
      case Nested(inner, params) =>
        CompiledMeaning(t, db, row, params, inner);
      case Tests(column, tests) =>
        CompiledTests(t, column, tests);
        SinglesSay(db, row, column, tests, any);
      case Is(column, operand) =>
        CompileSingleTest(t, column, Test("eq", operand));
      case Group(entries) =>
        CompiledOne(t, db, row, entries[0], any);
      case Raw(cond) =>
    }
  }

  /** For every filter that compiles: the conditions evaluate to what the normalised filter says. */
  lemma {:induction false} CompiledMeaning(t: Entity, db: Database, row: Row, fs: seq<Filter>, any: bool)
    requires Compile(t, fs).Ok?
    ensures EvalEach(db, row, Compile(t, fs).value, any) == Says(db, row, Normalised(fs, any), any)
    decreases fs
  {
    if fs != [] {
      CompiledOne(t, db, row, fs[0], any);
      CompiledMeaning(t, db, row, fs[1..], any);
      EvalAppend(db, row, CompileOne(t, fs[0]).value, Compile(t, fs[1..]).value, any);
      SaysAppend(db, row, Rewritten(fs[0], any), Normalised(fs[1..], any), any);
    }
  }

  // ---------------------------------------------------------------- when it is what was said

  /** One test per column under `or_`, one entry per dictionary in a list. */
  predicate ShapedOne(f: Filter, any: bool)
    decreases f
  {
    match f
    case Nested(inner, params) => Shaped(params, inner)
    case Tests(column, tests) => any ==> |tests| == 1
    case Group(entries) => |entries| == 1 && ShapedOne(entries[0], any)
    case _ => true
  }

  predicate Shaped(fs: seq<Filter>, any: bool)
    decreases fs
  {
    fs == [] || (ShapedOne(fs[0], any) && Shaped(fs[1..], any))
  }

  lemma {:induction false} ShapedSaysOne(db: Database, row: Row, f: Filter, any: bool)
    requires ShapedOne(f, any)
    ensures Says(db, row, Rewritten(f, any), any) == SaysOne(db, row, f)
    decreases f
  {
    match f {
      case Nested(inner, params) =>
        ShapedSays(db, row, params, inner);
      case Tests(column, tests) =>
        if any {
          SinglesSay(db, row, column, tests, any);
          assert tests == [tests[0]];
          SingleTestSays(db, row, column, tests[0], true);
          SingleTestSays(db, row, column, tests[0], false);
        }
      case Group(entries) =>
        ShapedSaysOne(db, row, entries[0], any);
        assert Says(db, row, entries[1..], false) == None;
      case _ =>
    }
  }

  lemma {:induction false} ShapedSays(db: Database, row: Row, fs: seq<Filter>, any: bool)
    requires Shaped(fs, any)
    ensures Says(db, row, Normalised(fs, any), any) == Says(db, row, fs, any)
    decreases fs
  {
    if fs != [] {
      ShapedSaysOne(db, row, fs[0], any);
      ShapedSays(db, row, fs[1..], any);
      SaysAppend(db, row, Rewritten(fs[0], any), Normalised(fs[1..], any), any);
    }
  }

  /** A well-shaped filter is compiled to what it says. */
  lemma ShapedMeaning(t: Entity, db: Database, row: Row, fs: seq<Filter>, any: bool)
    requires Compile(t, fs).Ok? && Shaped(fs, any)
    ensures EvalEach(db, row, Compile(t, fs).value, any) == Says(db, row, fs, any)
  {
    CompiledMeaning(t, db, row, fs, any);
    ShapedSays(db, row, fs, any);
  }

  // ---------------------------------------------------------------- and only then

  /** The same keys, columns and nesting; the tests are free. */
  predicate SameOne(f: Filter, g: Filter)
    decreases f
  {
    match f
    case Nested(any, params) => g.Nested? && g.any == any && Same(params, g.params)
    case Tests(column, tests) => g.Tests? && g.column == column && |g.tests| == |tests|
    case Is(column, _) => g.Is? && g.column == column
    case Group(entries) => g.Group? && Same(entries, g.entries)
    case Raw(_) => g.Raw?
    case Malformed => g.Malformed?
  }

  predicate Same(fs: seq<Filter>, gs: seq<Filter>)
    decreases fs
  {
    |fs| == |gs| && (fs == [] || (SameOne(fs[0], gs[0]) && Same(fs[1..], gs[1..])))
  }

  /** Known columns and no empty nesting anywhere. */
  predicate SolidOne(t: Entity, f: Filter)
    decreases f
  {
    match f
    case Nested(_, params) => params != [] && Solid(t, params)
    case Tests(column, tests) => column in t.columns && tests != []
    case Is(column, _) => column in t.columns
    case Group(entries) => entries != [] && Solid(t, entries)
    case Raw(_) => true
    case Malformed => false
  }

  predicate Solid(t: Entity, fs: seq<Filter>)
    decreases fs
  {
    fs == [] || (SolidOne(t, fs[0]) && Solid(t, fs[1..]))
  }

  const ZEROS: Row := _ => Num(0)

  /** A test that has the given truth on the row of zeros. */
  function Certain(b: bool): Test {
    Test("eq", One(Num(if b then 0 else 1)))
  }

  function Certainly(n: nat, b: bool): (tests: seq<Test>)
    ensures |tests| == n
  {
    seq(n, _ => Certain(b))
  }

  function FillOne(f: Filter, b: bool): Filter
    decreases f
  {
    match f
    case Nested(any, params) => Nested(any, Fill(params, b))
    case Tests(column, tests) => Tests(column, Certainly(|tests|, b))
    case Is(column, _) => Is(column, Certain(b).operand)
    case Group(entries) => Group(Fill(entries, b))
    case Raw(_) => Raw(On("", Certain(b)))
    case Malformed => Malformed
  }

  function Fill(fs: seq<Filter>, b: bool): (gs: seq<Filter>)
    ensures |gs| == |fs|
    decreases fs
  {
    if fs == [] then [] else [FillOne(fs[0], b)] + Fill(fs[1..], b)
  }

  /** Tests under which a filter that is not well-shaped says no and compiles to yes. */
  function BreakOne(f: Filter, any: bool): Filter
    decreases f
  {
    match f
    case Nested(inner, params) => Nested(inner, Break(params, inner))
    case Tests(column, tests) =>
      if |tests| == 0 then f else Tests(column, [Certain(true)] + Certainly(|tests| - 1, false))
    case Group(entries) =>
      if |entries| == 0 then f
      else if |entries| == 1 then Group([BreakOne(entries[0], any)])
      else Group([FillOne(entries[0], true)] + Fill(entries[1..], false))
    case _ => f
  }

  function Break(fs: seq<Filter>, any: bool): seq<Filter>
    decreases fs
  {
    if fs == [] then []
    else if ShapedOne(fs[0], any) then [FillOne(fs[0], !any)] + Break(fs[1..], any)
    else [BreakOne(fs[0], any)] + Fill(fs[1..], !any)
  }

  ghost predicate CompilesTo(t: Entity, db: Database, f: Filter, any: bool, truth: bool) {
    CompileOne(t, f).Ok? && EvalEach(db, ZEROS, CompileOne(t, f).value, any) == Some(FromBool(truth))
  }

  lemma {:induction false} CertainTests(t: Entity, db: Database, column: string, n: nat, b: bool, any: bool)
    requires column in t.columns
    ensures CompileTests(t, column, Certainly(n, b)) == Ok(OnEach(column, Certainly(n, b)))
    ensures EvalEach(db, ZEROS, OnEach(column, Certainly(n, b)), any) == if n == 0 then None else Some(FromBool(b))
    decreases n
  {
    CompiledTests(t, column, Certainly(n, b));
    if n > 0 {
      assert OnEach(column, Certainly(n, b))[1..] == OnEach(column, Certainly(n - 1, b));
      CertainTests(t, db, column, n - 1, b, any);
    }
  }

  lemma {:induction false} FilledOne(t: Entity, db: Database, f: Filter, b: bool, any: bool)
    requires SolidOne(t, f)
    ensures SameOne(f, FillOne(f, b)) && CompilesTo(t, db, FillOne(f, b), any, b)
    ensures SaysOne(db, ZEROS, FillOne(f, b)) == Some(FromBool(b))
    decreases f
  {
    match f {
      case Nested(inner, params) => Filled(t, db, params, b, inner);
      case Tests(column, tests) =>
        CertainTests(t, db, column, |tests|, b, any);
        CertainTests(t, db, column, |tests|, b, false);
      case Is(column, _) => CompileSingleTest(t, column, Certain(b));
      case Group(entries) =>
        Filled(t, db, entries, b, false);
        FilledOne(t, db, entries[0], b, any);
      case Raw(_) =>
    }
  }

  lemma {:induction false} Filled(t: Entity, db: Database, fs: seq<Filter>, b: bool, any: bool)
    requires Solid(t, fs)
    ensures Same(fs, Fill(fs, b)) && Compile(t, Fill(fs, b)).Ok?
    ensures EvalEach(db, ZEROS, Compile(t, Fill(fs, b)).value, any) == if fs == [] then None else Some(FromBool(b))
    ensures Says(db, ZEROS, Fill(fs, b), any) == if fs == [] then None else Some(FromBool(b))
    decreases fs
  {
    if fs != [] {
      FilledOne(t, db, fs[0], b, any);
      Filled(t, db, fs[1..], b, any);
      CompileCons(t, FillOne(fs[0], b), Fill(fs[1..], b));
      EvalAppend(db, ZEROS, CompileOne(t, FillOne(fs[0], b)).value, Compile(t, Fill(fs[1..], b)).value, any);
      SaysCons(db, ZEROS, FillOne(fs[0], b), Fill(fs[1..], b), any);
    }
  }

  lemma CompileCons(t: Entity, f: Filter, fs: seq<Filter>)
    requires CompileOne(t, f).Ok? && Compile(t, fs).Ok?
    ensures Compile(t, [f] + fs) == Ok(CompileOne(t, f).value + Compile(t, fs).value)
  {
    assert ([f] + fs)[1..] == fs;
  }

  lemma SaysCons(db: Database, row: Row, f: Filter, fs: seq<Filter>, any: bool)
    ensures Says(db, row, [f] + fs, any) == Combine(any, SaysOne(db, row, f), Says(db, row, fs, any))
  {
    assert ([f] + fs)[1..] == fs;
  }

  lemma ShapedCons(f: Filter, fs: seq<Filter>, any: bool)
    ensures Shaped([f] + fs, any) <==> ShapedOne(f, any) && Shaped(fs, any)
  {
    assert ([f] + fs)[1..] == fs;
  }

  lemma BrokenTests(t: Entity, db: Database, column: string, n: nat)
    requires column in t.columns && n > 0
    ensures var f := Tests(column, [Certain(true)] + Certainly(n, false));
      CompilesTo(t, db, f, true, true) && SaysOne(db, ZEROS, f) == Some(No)
  {
    var broken := [Certain(true)] + Certainly(n, false);
    CompiledTests(t, column, broken);
    assert OnEach(column, broken)[1..] == OnEach(column, Certainly(n, false));
    CertainTests(t, db, column, n, false, true);
    CertainTests(t, db, column, n, false, false);
  }

  lemma {:induction false} BrokenOne(t: Entity, db: Database, f: Filter, any: bool)
    requires SolidOne(t, f) && !ShapedOne(f, any)
    ensures SameOne(f, BreakOne(f, any)) && CompilesTo(t, db, BreakOne(f, any), any, true)
    ensures SaysOne(db, ZEROS, BreakOne(f, any)) == Some(No)
    decreases f
  {
    match f {
      case Nested(inner, params) => Broken(t, db, params, inner);
      case Tests(column, tests) =>
        BrokenTests(t, db, column, |tests| - 1);
      case Group(entries) =>
        if |entries| == 1 {
          BrokenOne(t, db, entries[0], any);
        } else {
          FilledOne(t, db, entries[0], true, any);
          Filled(t, db, entries[1..], false, false);
          SaysCons(db, ZEROS, FillOne(entries[0], true), Fill(entries[1..], false), false);
        }
    }
  }

  /** `gs` has the shape of `fs`; on the row of zeros it says no, and its conditions say yes. */
  ghost predicate Misread(t: Entity, db: Database, fs: seq<Filter>, gs: seq<Filter>, any: bool) {
    && Same(fs, gs) && Compile(t, gs).Ok?
    && EvalEach(db, ZEROS, Compile(t, gs).value, any) == Some(Yes)
    && Says(db, ZEROS, gs, any) == Some(No)
  }

  /** A head and a tail together evaluate to, and say, what the parts do. */
  lemma BothParts(t: Entity, db: Database, head: Filter, tail: seq<Filter>, any: bool)
    requires CompileOne(t, head).Ok? && Compile(t, tail).Ok?
    ensures Compile(t, [head] + tail).Ok?
    ensures EvalEach(db, ZEROS, Compile(t, [head] + tail).value, any) ==
      Combine(any, EvalEach(db, ZEROS, CompileOne(t, head).value, any),
        EvalEach(db, ZEROS, Compile(t, tail).value, any))
    ensures Says(db, ZEROS, [head] + tail, any) == Combine(any, SaysOne(db, ZEROS, head), Says(db, ZEROS, tail, any))
  {
    CompileCons(t, head, tail);
    EvalAppend(db, ZEROS, CompileOne(t, head).value, Compile(t, tail).value, any);
    SaysCons(db, ZEROS, head, tail, any);
  }

  lemma SameCons(f: Filter, fs: seq<Filter>, g: Filter, gs: seq<Filter>)
    ensures Same([f] + fs, [g] + gs) <==> SameOne(f, g) && Same(fs, gs)
  {
    assert ([f] + fs)[1..] == fs && ([g] + gs)[1..] == gs;
  }

  lemma MisreadTail(t: Entity, db: Database, f: Filter, fs: seq<Filter>, gs: seq<Filter>, any: bool)
    requires SolidOne(t, f) && Misread(t, db, fs, gs, any)
    ensures Misread(t, db, [f] + fs, [FillOne(f, !any)] + gs, any)
  {
    FilledOne(t, db, f, !any, any);
    SameCons(f, fs, FillOne(f, !any), gs);
    BothParts(t, db, FillOne(f, !any), gs, any);
  }

  lemma MisreadHead(t: Entity, db: Database, f: Filter, fs: seq<Filter>, g: Filter, any: bool)
    requires SameOne(f, g) && CompilesTo(t, db, g, any, true) && SaysOne(db, ZEROS, g) == Some(No) && Solid(t, fs)
    ensures Misread(t, db, [f] + fs, [g] + Fill(fs, !any), any)
  {
    Filled(t, db, fs, !any, any);
    SameCons(f, fs, g, Fill(fs, !any));
    BothParts(t, db, g, Fill(fs, !any), any);
  }

  lemma {:induction false} Broken(t: Entity, db: Database, fs: seq<Filter>, any: bool)
    requires Solid(t, fs) && !Shaped(fs, any)
    ensures Misread(t, db, fs, Break(fs, any), any)
    decreases fs
  {
    assert fs == [fs[0]] + fs[1..];
    if ShapedOne(fs[0], any) {
      Broken(t, db, fs[1..], any);
      MisreadTail(t, db, fs[0], fs[1..], Break(fs[1..], any), any);
    } else {
      BrokenOne(t, db, fs[0], any);
      MisreadHead(t, db, fs[0], fs[1..], BreakOne(fs[0], any), any);
    }
  }

  lemma {:induction false} SameShapedOne(f: Filter, g: Filter, any: bool)
    requires SameOne(f, g)
    ensures ShapedOne(f, any) == ShapedOne(g, any)
    decreases f
  {
    match f {
      case Nested(inner, params) => SameShaped(params, g.params, inner);
      case Group(entries) => if |entries| == 1 { SameShapedOne(entries[0], g.entries[0], any); }
      case _ =>
    }
  }

  lemma {:induction false} SameShaped(fs: seq<Filter>, gs: seq<Filter>, any: bool)
    requires Same(fs, gs)
    ensures Shaped(fs, any) == Shaped(gs, any)
    decreases fs
  {
    if fs != [] {
      SameShapedOne(fs[0], gs[0], any);
      SameShaped(fs[1..], gs[1..], any);
    }
  }

  /** The compiled condition of `gs` is what `gs` says, on every row. */
  ghost predicate Faithful(t: Entity, gs: seq<Filter>, any: bool) {
    Compile(t, gs).Ok? ==>
      forall db: Database, row: Row :: EvalEach(db, row, Compile(t, gs).value, any) == Says(db, row, gs, any)
  }

  /** Exactly the well-shaped filters are compiled to what they say whatever their tests. */
  lemma FaithfulExactly(t: Entity, fs: seq<Filter>, any: bool)
    requires Solid(t, fs)
    ensures Shaped(fs, any) <==> forall gs :: Same(fs, gs) ==> Faithful(t, gs, any)
  {
    if Shaped(fs, any) {
      forall gs | Same(fs, gs) ensures Faithful(t, gs, any) {
        SameShaped(fs, gs, any);
        if Compile(t, gs).Ok? {
          forall db: Database, row: Row
            ensures EvalEach(db, row, Compile(t, gs).value, any) == Says(db, row, gs, any)
          {
            ShapedMeaning(t, db, row, gs, any);
          }
        }
      }
    } else {
      var db := Database((_, _) => true, (_, _, _) => Unknown);
      Broken(t, db, fs, any);
      assert !Faithful(t, Break(fs, any), any);
    }
  }
}
