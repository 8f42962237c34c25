/**
 * The queries the ontology compiler emits, and what they denote.
 *
 * A query is rejected (None) when a source, an alias or a column does not resolve, or when a plain
 * column is selected next to an aggregate without being grouped.  Otherwise it denotes a bag of rows.
 * How values compare and aggregate is left to the engine.
 */
module SqlQuery {
  import opened Std

  datatype ValueMap = ValueMap(from: string, to: string)
  datatype Column = Column(alias: string, name: string)
  datatype Expr =
    | Ref(col: Column)
    | Case(col: Column, maps: seq<ValueMap>)
    | Zero
    | NullLiteral
    | Call(func: string, col: Column)
  /** An output and its name; a non-empty `suffix` stands behind the closing quote of the name. */
  datatype SelectItem = SelectItem(expr: Expr, output: string, suffix: string)
  datatype Source = Parquet(path: string) | View(name: string)
  datatype Join = Join(source: Source, alias: string, left: Column, right: Column)
  datatype Condition = Condition(col: Column, op: string, value: string, quoted: bool)
  datatype Query = Query(
    select: seq<SelectItem>, from: Source, alias: string, joins: seq<Join>,
    conditions: seq<Condition>, groupBy: seq<Column>)

  datatype ViewColumn = ViewColumn(source: string, name: string)
  datatype ViewDefinition = ViewDefinition(name: string, columns: seq<ViewColumn>, path: string)

  // ----- data -----

  datatype Value = Null | Text(text: string) | Number(number: real)
  type Row = map<string, Value>
  datatype Table = Table(columns: set<string>, rows: seq<Row>)
  type Files = string -> Option<Table>
  type Views = map<string, Table>

  datatype Engine = Engine(
    equal: (Value, Value) -> bool,
    holds: (Value, string, string, bool) -> bool,
    aggregate: (string, seq<Value>) -> Value)

  /** How values compare, by themselves; `number` reads a numeric literal. */
  datatype Comparison = Comparison(
    equal: (Value, Value) -> bool, less: (Value, Value) -> bool, like: (Value, Value) -> bool, number: string -> real)

  function Literal(m: Comparison, text: string, quoted: bool): Value {
    if quoted then Text(text) else Number(m.number(text))
  }

  /** What the seven operators of SQL say of a value and a literal; nothing holds of NULL. */
  predicate ReadsAt(e: Engine, m: Comparison, v: Value, text: string, quoted: bool) {
    var w := Literal(m, text, quoted);
    && e.holds(v, "=", text, quoted) == (v != Null && m.equal(v, w))
    && e.holds(v, "<>", text, quoted) == (v != Null && !m.equal(v, w))
    && e.holds(v, ">", text, quoted) == (v != Null && m.less(w, v))
    && e.holds(v, ">=", text, quoted) == (v != Null && !m.less(v, w))
    && e.holds(v, "<", text, quoted) == (v != Null && m.less(v, w))
    && e.holds(v, "<=", text, quoted) == (v != Null && !m.less(w, v))
    && e.holds(v, "LIKE", text, quoted) == (v != Null && m.like(v, w))
  }

  ghost predicate ReadsOperators(e: Engine, m: Comparison) {
    forall v: Value, text: string, quoted: bool :: ReadsAt(e, m, v, text, quoted)
  }

  /** The operators as functions of a comparison. */
  predicate Compares(m: Comparison, v: Value, op: string, w: Value) {
    && v != Null
    && match op
       case "=" => m.equal(v, w)
       case "<>" => !m.equal(v, w)
       case ">" => m.less(w, v)
       case ">=" => !m.less(v, w)
       case "<" => m.less(v, w)
       case "<=" => !m.less(w, v)
       case "LIKE" => m.like(v, w)
       case _ => false
  }

  /** For every comparison there is an engine that reads the operators as it says. */
  lemma EngineExists(m: Comparison, aggregate: (string, seq<Value>) -> Value) returns (e: Engine)
    ensures ReadsOperators(e, m) && e.equal == m.equal && e.aggregate == aggregate
  {
    e := Engine(
      m.equal,
      (v: Value, op: string, text: string, quoted: bool) => Compares(m, v, op, Literal(m, text, quoted)),
      aggregate);
    forall v: Value, text: string, quoted: bool ensures ReadsAt(e, m, v, text, quoted) { }
  }

  /** One row of the joined sources: a row per alias, empty for an unmatched outer join. */
  type Env = map<string, Row>

  function Get(row: Row, name: string): Value {
    if name in row then row[name] else Null
  }

  function Lookup(env: Env, c: Column): Value {
    if c.alias in env then Get(env[c.alias], c.name) else Null
  }

  function Resolve(files: Files, views: Views, s: Source): Option<Table> {
    match s
    case Parquet(path) => files(path)
    case View(name) => if name in views then Some(views[name]) else None
  }

  // ----- joining and filtering -----

  function FromRows(alias: string, rows: seq<Row>): (envs: seq<Env>) {
    seq(|rows|, i requires 0 <= i < |rows| => map[alias := rows[i]])
  }

  function Matches(e: Engine, env: Env, rows: seq<Row>, j: Join): (envs: seq<Env>) {
    if rows == [] then []
    else
      var joined := env[j.alias := rows[0]];
      (if e.equal(Lookup(joined, j.left), Lookup(joined, j.right)) then [joined] else [])
      + Matches(e, env, rows[1..], j)
  }

  function LeftJoin(e: Engine, envs: seq<Env>, rows: seq<Row>, j: Join): (r: seq<Env>) {
    if envs == [] then []
    else
      var matches := Matches(e, envs[0], rows, j);
      (if matches == [] then [envs[0][j.alias := map[]]] else matches) + LeftJoin(e, envs[1..], rows, j)
  }

  predicate Satisfies(e: Engine, env: Env, conditions: seq<Condition>) {
    forall i :: 0 <= i < |conditions| ==>
      var c := conditions[i]; e.holds(Lookup(env, c.col), c.op, c.value, c.quoted)
  }

  function Where(e: Engine, envs: seq<Env>, conditions: seq<Condition>): (r: seq<Env>) {
    if envs == [] then []
    else (if Satisfies(e, envs[0], conditions) then [envs[0]] else []) + Where(e, envs[1..], conditions)
  }

  // ----- projection -----

  function CaseOf(e: Engine, maps: seq<ValueMap>, v: Value): Value {
    if maps == [] then Null
    else if e.equal(v, Text(maps[0].from)) then Text(maps[0].to)
    else CaseOf(e, maps[1..], v)
  }

  function Values(envs: seq<Env>, c: Column): (vs: seq<Value>) {
    seq(|envs|, i requires 0 <= i < |envs| => Lookup(envs[i], c))
  }

  /** An output item over a group; a plain column takes the value its group shares. */
  function Item(e: Engine, group: seq<Env>, x: Expr): Value {
    match x
    case Zero => Number(0.0)
    case NullLiteral => Null
    case Call(func, c) => e.aggregate(func, Values(group, c))
    case Ref(c) => if group == [] then Null else Lookup(group[0], c)
    case Case(c, maps) => if group == [] then Null else CaseOf(e, maps, Lookup(group[0], c))
  }

  function Output(e: Engine, group: seq<Env>, select: seq<SelectItem>): (row: seq<Value>) {
    seq(|select|, i requires 0 <= i < |select| => Item(e, group, select[i].expr))
  }

  function Key(env: Env, groupBy: seq<Column>): (key: seq<Value>) {
    seq(|groupBy|, i requires 0 <= i < |groupBy| => Lookup(env, groupBy[i]))
  }

  /** The distinct keys, first occurrence first. */
  function Keys(envs: seq<Env>, groupBy: seq<Column>): (keys: seq<seq<Value>>) {
    if envs == [] then []
    else
      var keys := Keys(envs[..|envs| - 1], groupBy);
      var key := Key(envs[|envs| - 1], groupBy);
      if key in keys then keys else keys + [key]
  }

  function Group(envs: seq<Env>, groupBy: seq<Column>, key: seq<Value>): (group: seq<Env>) {
    if envs == [] then []
    else (if Key(envs[0], groupBy) == key then [envs[0]] else []) + Group(envs[1..], groupBy, key)
  }

  predicate HasCall(select: seq<SelectItem>) {
    exists i :: 0 <= i < |select| && select[i].expr.Call?
  }

  function Project(e: Engine, envs: seq<Env>, q: Query): (rows: seq<seq<Value>>) {
    if !HasCall(q.select) then
      seq(|envs|, i requires 0 <= i < |envs| => Output(e, [envs[i]], q.select))
    else if q.groupBy == [] then
      [Output(e, envs, q.select)]
    else
      var keys := Keys(envs, q.groupBy);
      seq(|keys|, i requires 0 <= i < |keys| => Output(e, Group(envs, q.groupBy, keys[i]), q.select))
  }

  // ----- binding -----

  function ExprColumns(x: Expr): set<Column> {
    if x.Zero? || x.NullLiteral? then {} else {x.col}
  }

  /** Every column the query mentions. */
  function Columns(q: Query): set<Column> {
    (set i, c | 0 <= i < |q.select| && c in ExprColumns(q.select[i].expr) :: c)
    + (set i | 0 <= i < |q.joins| :: q.joins[i].left) + (set i | 0 <= i < |q.joins| :: q.joins[i].right)
    + (set i | 0 <= i < |q.conditions| :: q.conditions[i].col)
    + (set c | c in q.groupBy)
  }

  function Aliases(q: Query): seq<string> {
    [q.alias] + seq(|q.joins|, i requires 0 <= i < |q.joins| => q.joins[i].alias)
  }

  function SourceOfAlias(q: Query, i: nat): Source
    requires i <= |q.joins|
  {
    if i == 0 then q.from else q.joins[i - 1].source
  }

  predicate AllResolve(files: Files, views: Views, q: Query) {
    forall i :: 0 <= i <= |q.joins| ==> Resolve(files, views, SourceOfAlias(q, i)).Some?
  }

  /** The column belongs to the table its alias stands for. */
  predicate Binds(files: Files, views: Views, q: Query, c: Column)
    requires AllResolve(files, views, q)
  {
    exists i :: 0 <= i <= |q.joins| && Aliases(q)[i] == c.alias
                && c.name in Resolve(files, views, SourceOfAlias(q, i)).value.columns
  }

  predicate GroupsCovered(q: Query) {
    HasCall(q.select) ==> forall i :: 0 <= i < |q.select| && (q.select[i].expr.Ref? || q.select[i].expr.Case?) ==>
      q.select[i].expr.col in q.groupBy
  }

  /** The query parses: no output name is followed by a suffix, and every condition has an operator. */
  predicate Parses(q: Query) {
    && (forall i :: 0 <= i < |q.select| ==> q.select[i].suffix == "")
    && (forall i :: 0 <= i < |q.conditions| ==> q.conditions[i].op != "")
  }

  predicate WellFormed(q: Query) {
    q.select != [] && Parses(q) && NoDup(Aliases(q)) && GroupsCovered(q)
  }

  predicate Accepted(files: Files, views: Views, q: Query) {
    && WellFormed(q)
    && AllResolve(files, views, q)
    && forall c :: c in Columns(q) ==> Binds(files, views, q, c)
  }

  // ----- meaning -----

  function JoinAll(e: Engine, files: Files, views: Views, envs: seq<Env>, joins: seq<Join>): (r: seq<Env>)
    requires forall i :: 0 <= i < |joins| ==> Resolve(files, views, joins[i].source).Some?
  {
    if joins == [] then envs
    else
      var rest := JoinAll(e, files, views, envs, joins[..|joins| - 1]);
      var j := joins[|joins| - 1];
      LeftJoin(e, rest, Resolve(files, views, j.source).value.rows, j)
  }

  /** The joined rows that satisfy the conditions. */
  function Selected(e: Engine, files: Files, views: Views, q: Query): (envs: seq<Env>)
    requires AllResolve(files, views, q)
  {
    assert Resolve(files, views, SourceOfAlias(q, 0)).Some?;
    assert forall i :: 0 <= i < |q.joins| ==> SourceOfAlias(q, i + 1) == q.joins[i].source;
    var envs := FromRows(q.alias, Resolve(files, views, q.from).value.rows);
    Where(e, JoinAll(e, files, views, envs, q.joins), q.conditions)
  }

  function Denote(e: Engine, files: Files, views: Views, q: Query): (bag: Option<multiset<seq<Value>>>) {
    if !Accepted(files, views, q) then None
    else Some(multiset(Project(e, Selected(e, files, views, q), q)))
  }

  // ----- views -----

  /** The source of a view column; a repeated column name means its first occurrence. */
  function ViewSource(columns: seq<ViewColumn>, name: string): (r: Option<string>)
    ensures r.Some? <==> exists i :: 0 <= i < |columns| && columns[i].name == name
  {
    if columns == [] then None
    else if columns[0].name == name then Some(columns[0].source)
    else ViewSource(columns[1..], name)
  }

  function ViewNames(columns: seq<ViewColumn>): set<string> {
    set i | 0 <= i < |columns| :: columns[i].name
  }

  function ViewRow(columns: seq<ViewColumn>, row: Row): Row {
    map name | name in ViewNames(columns) :: Get(row, ViewSource(columns, name).value)
  }

  predicate ViewAccepted(files: Files, v: ViewDefinition) {
    && v.columns != [] && files(v.path).Some?
    && forall i :: 0 <= i < |v.columns| ==> v.columns[i].source in files(v.path).value.columns
  }

  function ViewTable(files: Files, v: ViewDefinition): Table
    requires ViewAccepted(files, v)
  {
    var rows := files(v.path).value.rows;
    Table(ViewNames(v.columns), seq(|rows|, i requires 0 <= i < |rows| => ViewRow(v.columns, rows[i])))
  }

  /** CREATE OR REPLACE VIEW for each definition in turn; None when a statement is refused. */
  function CreateViews(files: Files, definitions: seq<ViewDefinition>, views: Views): (r: Option<Views>) {
    if definitions == [] then Some(views)
    else
      var rest := CreateViews(files, definitions[..|definitions| - 1], views);
      var v := definitions[|definitions| - 1];
      if rest.None? || !ViewAccepted(files, v) then None
      else Some(rest.value[v.name := ViewTable(files, v)])
  }

  // ----- rows that agree on the columns a query mentions -----

  ghost predicate Agree(refs: set<Column>, a: Env, b: Env) {
    a.Keys == b.Keys && forall c :: c in refs ==> Lookup(a, c) == Lookup(b, c)
  }

  ghost predicate AgreeAll(refs: set<Column>, a: seq<Env>, b: seq<Env>) {
    |a| == |b| && forall i :: 0 <= i < |a| ==> Agree(refs, a[i], b[i])
  }

  ghost predicate RowsAgree(refs: set<Column>, alias: string, a: seq<Row>, b: seq<Row>) {
    |a| == |b| && forall i, c :: 0 <= i < |a| && c in refs && c.alias == alias ==>
      Get(a[i], c.name) == Get(b[i], c.name)
  }

  lemma {:induction false} MatchesAgree(
      e: Engine, refs: set<Column>, a: Env, b: Env, ra: seq<Row>, rb: seq<Row>, j: Join, k: Join)
    requires Agree(refs, a, b) && RowsAgree(refs, j.alias, ra, rb)
    requires j.alias == k.alias && j.left == k.left && j.right == k.right && j.left in refs && j.right in refs
    ensures AgreeAll(refs, Matches(e, a, ra, j), Matches(e, b, rb, k))
  {
    if ra != [] {
      assert Agree(refs, a[j.alias := ra[0]], b[j.alias := rb[0]]) by {
        forall c | c in refs ensures Lookup(a[j.alias := ra[0]], c) == Lookup(b[j.alias := rb[0]], c) {
          if c.alias != j.alias { assert Lookup(a, c) == Lookup(b, c); }
        }
      }
      MatchesAgree(e, refs, a, b, ra[1..], rb[1..], j, k);
    }
  }

  lemma {:induction false} LeftJoinAgree(
      e: Engine, refs: set<Column>, a: seq<Env>, b: seq<Env>, ra: seq<Row>, rb: seq<Row>, j: Join, k: Join)
    requires AgreeAll(refs, a, b) && RowsAgree(refs, j.alias, ra, rb)
    requires j.alias == k.alias && j.left == k.left && j.right == k.right && j.left in refs && j.right in refs
    ensures AgreeAll(refs, LeftJoin(e, a, ra, j), LeftJoin(e, b, rb, k))
  {
    if a != [] {
      MatchesAgree(e, refs, a[0], b[0], ra, rb, j, k);
      assert Agree(refs, a[0][j.alias := map[]], b[0][j.alias := map[]]) by {
        forall c | c in refs ensures Lookup(a[0][j.alias := map[]], c) == Lookup(b[0][j.alias := map[]], c) {
          if c.alias != j.alias { assert Lookup(a[0], c) == Lookup(b[0], c); }
        }
      }
      LeftJoinAgree(e, refs, a[1..], b[1..], ra, rb, j, k);
    }
  }

  lemma {:induction false} WhereAgree(
      e: Engine, refs: set<Column>, a: seq<Env>, b: seq<Env>, conditions: seq<Condition>)
    requires AgreeAll(refs, a, b)
    requires forall i :: 0 <= i < |conditions| ==> conditions[i].col in refs
    ensures AgreeAll(refs, Where(e, a, conditions), Where(e, b, conditions))
  {
    if a != [] {
      WhereAgree(e, refs, a[1..], b[1..], conditions);
    }
  }

  lemma OutputAgree(e: Engine, refs: set<Column>, a: seq<Env>, b: seq<Env>, select: seq<SelectItem>)
    requires AgreeAll(refs, a, b)
    requires forall i :: 0 <= i < |select| ==> ExprColumns(select[i].expr) <= refs
    ensures Output(e, a, select) == Output(e, b, select)
  {
    forall i | 0 <= i < |select| ensures Item(e, a, select[i].expr) == Item(e, b, select[i].expr) {
      var x := select[i].expr;
      assert ExprColumns(x) <= refs;
      if x.Call? {
        assert Values(a, x.col) == Values(b, x.col);
      }
    }
  }

  lemma KeyAgree(refs: set<Column>, a: Env, b: Env, groupBy: seq<Column>)
    requires Agree(refs, a, b) && forall i :: 0 <= i < |groupBy| ==> groupBy[i] in refs
    ensures Key(a, groupBy) == Key(b, groupBy)
  {
  }

  lemma {:induction false} KeysAgree(refs: set<Column>, a: seq<Env>, b: seq<Env>, groupBy: seq<Column>)
    requires AgreeAll(refs, a, b) && forall i :: 0 <= i < |groupBy| ==> groupBy[i] in refs
    ensures Keys(a, groupBy) == Keys(b, groupBy)
  {
    if a != [] {
      KeysAgree(refs, a[..|a| - 1], b[..|b| - 1], groupBy);
      KeyAgree(refs, a[|a| - 1], b[|b| - 1], groupBy);
    }
  }

  lemma {:induction false} GroupAgree(
      refs: set<Column>, a: seq<Env>, b: seq<Env>, groupBy: seq<Column>, key: seq<Value>)
    requires AgreeAll(refs, a, b) && forall i :: 0 <= i < |groupBy| ==> groupBy[i] in refs
    ensures AgreeAll(refs, Group(a, groupBy, key), Group(b, groupBy, key))
  {
    if a != [] {
      KeyAgree(refs, a[0], b[0], groupBy);
      GroupAgree(refs, a[1..], b[1..], groupBy, key);
    }
  }

  lemma ProjectAgree(e: Engine, a: seq<Env>, b: seq<Env>, q: Query, p: Query)
    requires AgreeAll(Columns(q), a, b) && q.select == p.select && q.groupBy == p.groupBy
    ensures Project(e, a, q) == Project(e, b, p)
  {
    var refs := Columns(q);
    forall i | 0 <= i < |q.select| ensures ExprColumns(q.select[i].expr) <= refs { }
    assert forall i :: 0 <= i < |q.groupBy| ==> q.groupBy[i] in refs;
    if !HasCall(q.select) {
      forall i | 0 <= i < |a| ensures Output(e, [a[i]], q.select) == Output(e, [b[i]], q.select) {
        OutputAgree(e, refs, [a[i]], [b[i]], q.select);
      }
    } else if q.groupBy == [] {
      OutputAgree(e, refs, a, b, q.select);
    } else {
      KeysAgree(refs, a, b, q.groupBy);
      var keys := Keys(a, q.groupBy);
      forall i | 0 <= i < |keys|
        ensures Output(e, Group(a, q.groupBy, keys[i]), q.select) == Output(e, Group(b, q.groupBy, keys[i]), q.select)
      {
        GroupAgree(refs, a, b, q.groupBy, keys[i]);
        OutputAgree(e, refs, Group(a, q.groupBy, keys[i]), Group(b, q.groupBy, keys[i]), q.select);
      }
    }
  }

  // ----- two queries that differ only in where they read -----

  /** Same query up to the sources. */
  ghost predicate SameShape(q: Query, p: Query) {
    && q.select == p.select && q.alias == p.alias && q.conditions == p.conditions && q.groupBy == p.groupBy
    && |q.joins| == |p.joins|
    && forall i :: 0 <= i < |q.joins| ==>
         && q.joins[i].alias == p.joins[i].alias
         && q.joins[i].left == p.joins[i].left && q.joins[i].right == p.joins[i].right
  }

  /** Source by source, the two queries read rows that agree on the mentioned columns. */
  ghost predicate SourcesAgree(files: Files, views: Views, q: Query, p: Query) {
    && SameShape(q, p) && AllResolve(files, views, q) && AllResolve(files, views, p)
    && forall i :: 0 <= i <= |q.joins| ==>
         RowsAgree(Columns(q), Aliases(q)[i],
                   Resolve(files, views, SourceOfAlias(q, i)).value.rows,
                   Resolve(files, views, SourceOfAlias(p, i)).value.rows)
  }

  /** Where a mentioned column comes from. */
  lemma ColumnOrigin(q: Query, c: Column)
    requires c in Columns(q)
    ensures (exists i :: 0 <= i < |q.select| && c in ExprColumns(q.select[i].expr))
         || (exists i :: 0 <= i < |q.joins| && (c == q.joins[i].left || c == q.joins[i].right))
         || (exists i :: 0 <= i < |q.conditions| && c == q.conditions[i].col)
         || c in q.groupBy
  {
  }

  lemma WellFormedAlike(q: Query, p: Query)
    requires SameShape(q, p)
    ensures WellFormed(q) <==> WellFormed(p)
  {
    SameColumns(q, p);
  }

  lemma AcceptAlike(files: Files, views: Views, q: Query, p: Query)
    requires SameShape(q, p) && AllResolve(files, views, q) && AllResolve(files, views, p)
    requires forall c :: c in Columns(q) ==> (Binds(files, views, q, c) <==> Binds(files, views, p, c))
    ensures Accepted(files, views, q) <==> Accepted(files, views, p)
  {
    WellFormedAlike(q, p);
    SameColumns(q, p);
  }

  lemma SameColumns(q: Query, p: Query)
    requires SameShape(q, p)
    ensures Columns(q) == Columns(p) && Aliases(q) == Aliases(p)
  {
    assert forall i :: 0 <= i < |q.joins| ==>
      q.joins[i].left == p.joins[i].left && q.joins[i].right == p.joins[i].right;
    assert (set i | 0 <= i < |q.joins| :: q.joins[i].left) == (set i | 0 <= i < |p.joins| :: p.joins[i].left);
    assert (set i | 0 <= i < |q.joins| :: q.joins[i].right) == (set i | 0 <= i < |p.joins| :: p.joins[i].right);
  }

  /** Two joins that differ only in tables that agree on the mentioned columns. */
  ghost predicate JoinAgrees(files: Files, views: Views, refs: set<Column>, j: Join, k: Join) {
    && j.alias == k.alias && j.left == k.left && j.right == k.right && j.left in refs && j.right in refs
    && Resolve(files, views, j.source).Some? && Resolve(files, views, k.source).Some?
    && RowsAgree(refs, j.alias, Resolve(files, views, j.source).value.rows, Resolve(files, views, k.source).value.rows)
  }

  ghost predicate JoinsAgree(files: Files, views: Views, refs: set<Column>, js: seq<Join>, ks: seq<Join>) {
    |js| == |ks| && forall i :: 0 <= i < |js| ==> JoinAgrees(files, views, refs, js[i], ks[i])
  }

  lemma JoinAgreesAt(files: Files, views: Views, q: Query, p: Query, i: nat)
    requires SourcesAgree(files, views, q, p) && i < |q.joins|
    ensures JoinAgrees(files, views, Columns(q), q.joins[i], p.joins[i])
  {
    assert SourceOfAlias(q, i + 1) == q.joins[i].source && SourceOfAlias(p, i + 1) == p.joins[i].source;
    assert Aliases(q)[i + 1] == q.joins[i].alias;
    assert q.joins[i].left in Columns(q) && q.joins[i].right in Columns(q);
  }

  lemma {:induction false} JoinAllAgree(
      e: Engine, files: Files, views: Views, refs: set<Column>, a: seq<Env>, b: seq<Env>, js: seq<Join>, ks: seq<Join>)
    requires JoinsAgree(files, views, refs, js, ks) && AgreeAll(refs, a, b)
    ensures forall i :: 0 <= i < |js| ==> Resolve(files, views, js[i].source).Some?
    ensures forall i :: 0 <= i < |ks| ==> Resolve(files, views, ks[i].source).Some?
    ensures AgreeAll(refs, JoinAll(e, files, views, a, js), JoinAll(e, files, views, b, ks))
    decreases |js|
  {
    assert forall i :: 0 <= i < |js| ==> JoinAgrees(files, views, refs, js[i], ks[i]);
    if js != [] {
      var n := |js| - 1;
      var js', ks', j, k := js[..n], ks[..n], js[n], ks[n];
      JoinAllAgree(e, files, views, refs, a, b, js', ks');
      LeftJoinAgree(e, refs, JoinAll(e, files, views, a, js'), JoinAll(e, files, views, b, ks'),
                    Resolve(files, views, j.source).value.rows, Resolve(files, views, k.source).value.rows, j, k);
    }
  }

  lemma FromRowsAgree(refs: set<Column>, alias: string, ra: seq<Row>, rb: seq<Row>)
    requires RowsAgree(refs, alias, ra, rb)
    ensures AgreeAll(refs, FromRows(alias, ra), FromRows(alias, rb))
  {
  }

  lemma SelectedAgree(e: Engine, files: Files, views: Views, q: Query, p: Query)
    requires SourcesAgree(files, views, q, p)
    ensures AgreeAll(Columns(q), Selected(e, files, views, q), Selected(e, files, views, p))
  {
    assert SourceOfAlias(q, 0) == q.from && SourceOfAlias(p, 0) == p.from && Aliases(q)[0] == q.alias;
    assert forall i :: 0 <= i < |q.joins| ==> SourceOfAlias(q, i + 1) == q.joins[i].source;
    assert forall i :: 0 <= i < |p.joins| ==> SourceOfAlias(p, i + 1) == p.joins[i].source;
    var a := FromRows(q.alias, Resolve(files, views, q.from).value.rows);
    var b := FromRows(p.alias, Resolve(files, views, p.from).value.rows);
    FromRowsAgree(Columns(q), q.alias,
                  Resolve(files, views, q.from).value.rows, Resolve(files, views, p.from).value.rows);
    forall i | 0 <= i < |q.joins| ensures JoinAgrees(files, views, Columns(q), q.joins[i], p.joins[i]) {
      JoinAgreesAt(files, views, q, p, i);
    }
    JoinAllAgree(e, files, views, Columns(q), a, b, q.joins, p.joins);
    ConditionColumns(q);
    WhereAgree(e, Columns(q), JoinAll(e, files, views, a, q.joins), JoinAll(e, files, views, b, p.joins), q.conditions);
  }

  lemma ConditionColumns(q: Query)
    ensures forall i :: 0 <= i < |q.conditions| ==> q.conditions[i].col in Columns(q)
  {
  }

  /** Queries of the same shape over agreeing sources denote the same bag. */
  lemma DenoteAgree(e: Engine, files: Files, views: Views, q: Query, p: Query)
    requires SourcesAgree(files, views, q, p)
    requires Accepted(files, views, q) <==> Accepted(files, views, p)
    ensures Denote(e, files, views, q) == Denote(e, files, views, p)
  {
    if Accepted(files, views, q) {
      SelectedAgree(e, files, views, q, p);
      ProjectAgree(e, Selected(e, files, views, q), Selected(e, files, views, p), q, p);
    }
  }
}
