/**
 * The ontology compiler (internal/dsl/compiler.go), with its SQL output as a structured query.
 *
 * CompileObject reads either the Parquet files directly or the views that CompileDDL creates over
 * them.  The helpers it calls (the path check, the numeric test and the filter-value pattern) are
 * fields of `Compiler`.
 */
module OntologyCompiler {
  import opened Std
  import opened SqlQuery

  // ----- the ontology program -----

  datatype Property = Property(name: string, from: string, predict: bool, maps: seq<ValueMap>)
  datatype Filter = Filter(field: string, op: string, value: string)
  datatype Aggregate = Aggregate(func: string, field: string, alias: string)
  datatype ObjectDefinition = ObjectDefinition(
    name: string, fromSource: string, properties: seq<Property>, factors: seq<string>,
    filters: seq<Filter>, aggregates: seq<Aggregate>)
  datatype Relation = Relation(name: string, from: string, to: string, leftOn: string, rightOn: string)
  datatype Statement = ObjectStatement(obj: ObjectDefinition) | RelationStatement(rel: Relation) | OtherStatement

  datatype Compiler = Compiler(
    program: seq<Statement>, dataRoot: string,
    pathOk: string -> bool, isNumeric: string -> bool, validFilterValue: string -> bool)

  datatype Error =
    | ObjectNotFound
    | BadRelationSource(relation: string)
    | BadFilterValue(value: string)
    | BadSource(obj: string)

  // ----- what the compiler produces -----

  /** The first object of that name. */
  function FindObject(program: seq<Statement>, name: string): (r: Option<ObjectDefinition>)
    ensures r.Some? ==> ObjectStatement(r.value) in program && r.value.name == name
    ensures r.None? ==> forall s :: s in program && s.ObjectStatement? ==> s.obj.name != name
  {
    if program == [] then None
    else if program[0].ObjectStatement? && program[0].obj.name == name then Some(program[0].obj)
    else FindObject(program[1..], name)
  }

  function SourceField(p: Property): string {
    if p.from == "" then p.name else p.from
  }

  function FilePath(k: Compiler, dataset: string): string {
    k.dataRoot + "/" + dataset + "/latest/*.parquet"
  }

  function FactorItems(factors: seq<string>): (items: seq<SelectItem>) {
    seq(|factors|, i requires 0 <= i < |factors| => SelectItem(Zero, "_factor_" + factors[i], ""))
  }

  function PropertyExpr(obj: ObjectDefinition, p: Property): Expr {
    var col := Column(obj.name, SourceField(p));
    if p.maps == [] then Ref(col) else Case(col, p.maps)
  }

  function PropertyItems(obj: ObjectDefinition, p: Property): (items: seq<SelectItem>) {
    (if p.predict then [SelectItem(Zero, p.name, "_probability"), SelectItem(NullLiteral, p.name, "_vector")] else [])
    + FactorItems(obj.factors)
    + [SelectItem(PropertyExpr(obj, p), p.name, "")]
  }

  function PropertySelect(obj: ObjectDefinition, props: seq<Property>): (items: seq<SelectItem>) {
    if props == [] then []
    else PropertySelect(obj, props[..|props| - 1]) + PropertyItems(obj, props[|props| - 1])
  }

  function AggregateItems(obj: ObjectDefinition): (items: seq<SelectItem>) {
    seq(|obj.aggregates|, i requires 0 <= i < |obj.aggregates| =>
      var a := obj.aggregates[i]; SelectItem(Call(a.func, Column(obj.name, a.field)), a.alias, ""))
  }

  function ReadFrom(k: Compiler, useViews: bool, obj: ObjectDefinition): Source {
    if useViews then View(obj.name) else Parquet(FilePath(k, obj.fromSource))
  }

  function MakeJoin(k: Compiler, useViews: bool, rel: Relation, target: ObjectDefinition): Join {
    Join(ReadFrom(k, useViews, target), rel.to, Column(rel.from, rel.leftOn), Column(rel.to, rel.rightOn))
  }

  /** The relations that start at `name` and whose target is declared. */
  function Relations(k: Compiler, statements: seq<Statement>, name: string): (rels: seq<Relation>) {
    if statements == [] then []
    else
      var rest := Relations(k, statements[..|statements| - 1], name);
      var s := statements[|statements| - 1];
      if s.RelationStatement? && s.rel.from == name && FindObject(k.program, s.rel.to).Some?
      then rest + [s.rel] else rest
  }

  ghost predicate HasTargets(k: Compiler, rels: seq<Relation>) {
    forall i :: 0 <= i < |rels| ==> FindObject(k.program, rels[i].to).Some?
  }

  lemma {:induction false} RelationsHaveTargets(k: Compiler, statements: seq<Statement>, name: string)
    ensures HasTargets(k, Relations(k, statements, name))
    ensures forall i :: 0 <= i < |Relations(k, statements, name)| ==> Relations(k, statements, name)[i].from == name
  {
    if statements != [] { RelationsHaveTargets(k, statements[..|statements| - 1], name); }
  }

  function Joins(k: Compiler, useViews: bool, rels: seq<Relation>): (joins: seq<Join>)
    requires HasTargets(k, rels)
    ensures |joins| == |rels|
  {
    seq(|rels|, i requires 0 <= i < |rels| => MakeJoin(k, useViews, rels[i], FindObject(k.program, rels[i].to).value))
  }

  /** The first relation whose target file path is refused, in inline mode. */
  function RefusedRelation(k: Compiler, rels: seq<Relation>): (r: Option<string>)
    requires HasTargets(k, rels)
  {
    if rels == [] then None
    else if !k.pathOk(FilePath(k, FindObject(k.program, rels[0].to).value.fromSource)) then Some(rels[0].name)
    else RefusedRelation(k, rels[1..])
  }

  function GroupColumns(obj: ObjectDefinition, props: seq<Property>, aggregated: set<string>): (cols: seq<Column>) {
    if props == [] then []
    else
      var p := props[|props| - 1];
      GroupColumns(obj, props[..|props| - 1], aggregated)
      + if p.name in aggregated then [] else [Column(obj.name, p.name)]
  }

  function AggregatedFields(obj: ObjectDefinition): set<string> {
    set a | a in obj.aggregates :: a.field
  }

  function SqlOperator(op: string): string {
    match op
    case "eq" => "="
    case "neq" => "<>"
    case "gt" => ">"
    case "gte" => ">="
    case "lt" => "<"
    case "lte" => "<="
    case "like" => "LIKE"
    case _ => ""
  }

  function FilterCondition(k: Compiler, obj: ObjectDefinition, f: Filter): Condition {
    Condition(Column(obj.name, f.field), SqlOperator(f.op), f.value, !k.isNumeric(f.value))
  }

  function Conditions(k: Compiler, obj: ObjectDefinition): (cs: seq<Condition>) {
    seq(|obj.filters|, i requires 0 <= i < |obj.filters| => FilterCondition(k, obj, obj.filters[i]))
  }

  predicate FilterRefused(k: Compiler, f: Filter) {
    !k.isNumeric(f.value) && !k.validFilterValue(f.value)
  }

  function RefusedFilter(k: Compiler, filters: seq<Filter>): (r: Option<string>) {
    if filters == [] then None
    else if FilterRefused(k, filters[0]) then Some(filters[0].value)
    else RefusedFilter(k, filters[1..])
  }

  function Assembled(k: Compiler, useViews: bool, obj: ObjectDefinition): Query {
    RelationsHaveTargets(k, k.program, obj.name);
    Query(
      PropertySelect(obj, obj.properties) + AggregateItems(obj),
      ReadFrom(k, useViews, obj),
      obj.name,
      Joins(k, useViews, Relations(k, k.program, obj.name)),
      Conditions(k, obj),
      if obj.aggregates == [] then [] else GroupColumns(obj, obj.properties, AggregatedFields(obj)))
  }

  /** What CompileObject returns, with its checks in the order in which the source makes them. */
  function Compiled(k: Compiler, useViews: bool, name: string): (r: Result<Query, Error>) {
    var found := FindObject(k.program, name);
    if found.None? then Err(ObjectNotFound)
    else
      var obj := found.value;
      var rels := Relations(k, k.program, name);
      RelationsHaveTargets(k, k.program, name);
      var badRelation := if useViews then None else RefusedRelation(k, rels);
      var badFilter := RefusedFilter(k, obj.filters);
      if badRelation.Some? then Err(BadRelationSource(badRelation.value))
      else if badFilter.Some? then Err(BadFilterValue(badFilter.value))
      else if !useViews && !k.pathOk(FilePath(k, obj.fromSource)) then Err(BadSource(obj.name))
      else Ok(Assembled(k, useViews, obj))
  }

  function ViewColumns(props: seq<Property>): (cols: seq<ViewColumn>) {
    seq(|props|, i requires 0 <= i < |props| => ViewColumn(SourceField(props[i]), props[i].name))
  }

  function ViewOf(k: Compiler, obj: ObjectDefinition): ViewDefinition {
    ViewDefinition(obj.name, ViewColumns(obj.properties), FilePath(k, obj.fromSource))
  }

  /** What CompileDDL returns. */
  function CompiledViews(k: Compiler, statements: seq<Statement>): (r: Result<seq<ViewDefinition>, Error>) {
    if statements == [] then Ok([])
    else
      var rest := CompiledViews(k, statements[..|statements| - 1]);
      var s := statements[|statements| - 1];
      if rest.Err? || !s.ObjectStatement? then rest
      else if !k.pathOk(s.obj.fromSource) then Err(BadSource(s.obj.name))
      else Ok(rest.value + [ViewOf(k, s.obj)])
  }

  // ----- view mode against inline mode -----

  /** All objects of that name are declared alike; the compiler reads the first, the view is the last. */
  ghost predicate SingleDefinition(k: Compiler, name: string) {
    forall s, t | s in k.program && t in k.program && s.ObjectStatement? && t.ObjectStatement?
      :: s.obj.name == name && t.obj.name == name ==> s.obj == t.obj
  }

  /** The view of the column's object shows that very column of the file under its own name. */
  ghost predicate PassedThrough(k: Compiler, c: Column) {
    var obj := FindObject(k.program, c.alias);
    obj.Some? && ViewSource(ViewColumns(obj.value.properties), c.name) == Some(c.name)
  }

  /** The view of the column's object has a column of that name. */
  ghost predicate Exposed(k: Compiler, c: Column) {
    var obj := FindObject(k.program, c.alias);
    obj.Some? && ViewSource(ViewColumns(obj.value.properties), c.name).Some?
  }

  /** Compiling in view mode fails only where inline mode fails, and changes nothing but the sources. */
  lemma ModesDifferInSources(k: Compiler, name: string)
    requires Compiled(k, false, name).Ok?
    ensures Compiled(k, true, name).Ok?
    ensures SameShape(Compiled(k, false, name).value, Compiled(k, true, name).value)
  {
    RelationsHaveTargets(k, k.program, name);
  }

  /** Which object stands behind each alias of a compiled query, in either mode. */
  lemma AliasObjects(k: Compiler, useViews: bool, name: string, i: nat)
    requires Compiled(k, useViews, name).Ok? && i <= |Compiled(k, useViews, name).value.joins|
    ensures var q := Compiled(k, useViews, name).value;
      var obj := FindObject(k.program, Aliases(q)[i]);
      obj.Some? && SourceOfAlias(q, i) == ReadFrom(k, useViews, obj.value)
  {
    RelationsHaveTargets(k, k.program, name);
  }

  /** After the DDL every declared object has its view. */
  lemma {:induction false} ViewsExist(k: Compiler, n: nat, files: Files, before: Views, obj: ObjectDefinition)
    requires n <= |k.program| && CompiledViews(k, k.program[..n]).Ok?
    requires CreateViews(files, CompiledViews(k, k.program[..n]).value, before).Some?
    requires ObjectStatement(obj) in k.program[..n] && SingleDefinition(k, obj.name)
    ensures ViewAccepted(files, ViewOf(k, obj))
    ensures var views := CreateViews(files, CompiledViews(k, k.program[..n]).value, before).value;
      obj.name in views && views[obj.name] == ViewTable(files, ViewOf(k, obj))
  {
    var s := k.program[n - 1];
    assert k.program[..n][..n - 1] == k.program[..n - 1];
    var rest := CompiledViews(k, k.program[..n - 1]);
    if s.ObjectStatement? {
      assert CompiledViews(k, k.program[..n]).value == rest.value + [ViewOf(k, s.obj)];
      assert (rest.value + [ViewOf(k, s.obj)])[..|rest.value|] == rest.value;
      if s.obj.name != obj.name || ObjectStatement(obj) in k.program[..n - 1] {
        ViewsExist(k, n - 1, files, before, obj);
      }
      if s.obj.name == obj.name {
        assert s in k.program && ObjectStatement(obj) in k.program;
      }
    } else {
      ViewsExist(k, n - 1, files, before, obj);
    }
  }

  /** The setting of the comparison: both modes compile, and the DDL has created its views. */
  ghost predicate Prepared(k: Compiler, name: string, files: Files, before: Views, views: Views) {
    && Compiled(k, false, name).Ok?
    && CompiledViews(k, k.program).Ok?
    && CreateViews(files, CompiledViews(k, k.program).value, before) == Some(views)
    && forall a :: a in Aliases(Compiled(k, false, name).value) ==> SingleDefinition(k, a)
  }

  /** Behind each alias: the file's table inline, its view in view mode. */
  lemma AliasTables(k: Compiler, name: string, files: Files, before: Views, views: Views, i: nat)
    requires Prepared(k, name, files, before, views) && i <= |Compiled(k, false, name).value.joins|
    ensures Compiled(k, true, name).Ok?
    ensures var q, p := Compiled(k, false, name).value, Compiled(k, true, name).value;
      && SameShape(q, p)
      && var obj := FindObject(k.program, Aliases(q)[i]);
      && obj.Some? && ViewAccepted(files, ViewOf(k, obj.value))
      && Resolve(files, views, SourceOfAlias(q, i)) == files(FilePath(k, obj.value.fromSource))
      && Resolve(files, views, SourceOfAlias(p, i)) == Some(ViewTable(files, ViewOf(k, obj.value)))
  {
    ModesDifferInSources(k, name);
    var q, p := Compiled(k, false, name).value, Compiled(k, true, name).value;
    SameColumns(q, p);
    AliasObjects(k, false, name, i);
    AliasObjects(k, true, name, i);
    var obj := FindObject(k.program, Aliases(q)[i]).value;
    assert Aliases(q)[i] in Aliases(q);
    assert k.program[..|k.program|] == k.program;
    ViewsExist(k, |k.program|, files, before, obj);
  }

  lemma AllTablesResolve(k: Compiler, name: string, files: Files, before: Views, views: Views)
    requires Prepared(k, name, files, before, views)
    ensures Compiled(k, true, name).Ok?
    ensures SameShape(Compiled(k, false, name).value, Compiled(k, true, name).value)
    ensures AllResolve(files, views, Compiled(k, false, name).value)
    ensures AllResolve(files, views, Compiled(k, true, name).value)
  {
    AliasTables(k, name, files, before, views, 0);
    var q, p := Compiled(k, false, name).value, Compiled(k, true, name).value;
    forall i | 0 <= i <= |q.joins|
      ensures Resolve(files, views, SourceOfAlias(q, i)).Some? && Resolve(files, views, SourceOfAlias(p, i)).Some?
    {
      AliasTables(k, name, files, before, views, i);
    }
  }

  /** A column that is passed through binds in both modes as soon as its alias is there. */
  lemma PassedThroughBinds(k: Compiler, name: string, files: Files, before: Views, views: Views, c: Column)
    requires Prepared(k, name, files, before, views) && PassedThrough(k, c)
    requires c.alias in Aliases(Compiled(k, false, name).value)
    ensures AllResolve(files, views, Compiled(k, false, name).value) &&
      Binds(files, views, Compiled(k, false, name).value, c)
    ensures Compiled(k, true, name).Ok? && AllResolve(files, views, Compiled(k, true, name).value)
    ensures Binds(files, views, Compiled(k, true, name).value, c)
  {
    AllTablesResolve(k, name, files, before, views);
    var q, p := Compiled(k, false, name).value, Compiled(k, true, name).value;
    SameColumns(q, p);
    var i :| 0 <= i < |Aliases(q)| && Aliases(q)[i] == c.alias;
    AliasTables(k, name, files, before, views, i);
    var obj := FindObject(k.program, c.alias).value;
    ShownColumn(ViewColumns(obj.properties), c.name);
  }

  lemma {:induction false} ShownColumn(columns: seq<ViewColumn>, name: string)
    requires ViewSource(columns, name) == Some(name)
    ensures exists i :: 0 <= i < |columns| && columns[i] == ViewColumn(name, name)
  {
    if columns[0].name != name {
      ShownColumn(columns[1..], name);
      var i :| 0 <= i < |columns[1..]| && columns[1..][i] == ViewColumn(name, name);
      assert columns[i + 1] == ViewColumn(name, name);
    } else {
      assert columns[0] == ViewColumn(name, name);
    }
  }

  lemma PassedThroughRows(
      k: Compiler, name: string, files: Files, before: Views, views: Views, refs: set<Column>, i: nat)
    requires Prepared(k, name, files, before, views) && i <= |Compiled(k, false, name).value.joins|
    requires forall c :: c in refs ==> PassedThrough(k, c)
    ensures AllResolve(files, views, Compiled(k, false, name).value)
    ensures Compiled(k, true, name).Ok? && AllResolve(files, views, Compiled(k, true, name).value)
    ensures var q, p := Compiled(k, false, name).value, Compiled(k, true, name).value;
      |p.joins| == |q.joins| &&
      RowsAgree(refs, Aliases(q)[i], Resolve(files, views, SourceOfAlias(q, i)).value.rows,
                Resolve(files, views, SourceOfAlias(p, i)).value.rows)
  {
    AllTablesResolve(k, name, files, before, views);
    AliasTables(k, name, files, before, views, i);
    var q := Compiled(k, false, name).value;
    var alias := Aliases(q)[i];
    var obj := FindObject(k.program, alias).value;
    var columns := ViewColumns(obj.properties);
    var rows := files(FilePath(k, obj.fromSource)).value.rows;
    forall n, c | 0 <= n < |rows| && c in refs && c.alias == alias
      ensures Get(rows[n], c.name) == Get(ViewRow(columns, rows[n]), c.name)
    {
      assert PassedThrough(k, c);
      assert c.name in ViewNames(columns);
    }
  }

  lemma ModesReadAgreeingRows(k: Compiler, name: string, files: Files, before: Views, views: Views)
    requires Prepared(k, name, files, before, views)
    requires forall c :: c in Columns(Compiled(k, false, name).value) ==> PassedThrough(k, c)
    ensures Compiled(k, true, name).Ok?
    ensures SourcesAgree(files, views, Compiled(k, false, name).value, Compiled(k, true, name).value)
  {
    AllTablesResolve(k, name, files, before, views);
    var q, p := Compiled(k, false, name).value, Compiled(k, true, name).value;
    forall i | 0 <= i <= |q.joins|
      ensures RowsAgree(Columns(q), Aliases(q)[i], Resolve(files, views, SourceOfAlias(q, i)).value.rows,
                        Resolve(files, views, SourceOfAlias(p, i)).value.rows)
    {
      PassedThroughRows(k, name, files, before, views, Columns(q), i);
    }
  }

  lemma ColumnBindsAlike(k: Compiler, name: string, files: Files, before: Views, views: Views, c: Column)
    requires Prepared(k, name, files, before, views) && PassedThrough(k, c)
    ensures AllResolve(files, views, Compiled(k, false, name).value)
    ensures Compiled(k, true, name).Ok? && AllResolve(files, views, Compiled(k, true, name).value)
    ensures Binds(files, views, Compiled(k, false, name).value, c) <==>
      Binds(files, views, Compiled(k, true, name).value, c)
  {
    AllTablesResolve(k, name, files, before, views);
    SameColumns(Compiled(k, false, name).value, Compiled(k, true, name).value);
    if c.alias in Aliases(Compiled(k, false, name).value) {
      PassedThroughBinds(k, name, files, before, views, c);
    }
  }

  lemma ModesAcceptAlike(k: Compiler, name: string, files: Files, before: Views, views: Views)
    requires Prepared(k, name, files, before, views)
    requires forall c :: c in Columns(Compiled(k, false, name).value) ==> PassedThrough(k, c)
    ensures Compiled(k, true, name).Ok?
    ensures Accepted(files, views, Compiled(k, false, name).value) <==>
      Accepted(files, views, Compiled(k, true, name).value)
  {
    AllTablesResolve(k, name, files, before, views);
    var q, p := Compiled(k, false, name).value, Compiled(k, true, name).value;
    forall c | c in Columns(q) ensures Binds(files, views, q, c) <==> Binds(files, views, p, c) {
      ColumnBindsAlike(k, name, files, before, views, c);
    }
    AcceptAlike(files, views, q, p);
  }

  /** View mode denotes what inline mode denotes when the views pass every mentioned column through. */
  lemma ViewModeDenotesInlineMode(k: Compiler, name: string, e: Engine, files: Files, before: Views, views: Views)
    requires Prepared(k, name, files, before, views)
    requires forall c :: c in Columns(Compiled(k, false, name).value) ==> PassedThrough(k, c)
    ensures Compiled(k, true, name).Ok?
    ensures Denote(e, files, views, Compiled(k, true, name).value)
         == Denote(e, files, views, Compiled(k, false, name).value)
  {
    ModesReadAgreeingRows(k, name, files, before, views);
    ModesAcceptAlike(k, name, files, before, views);
    DenoteAgree(e, files, views, Compiled(k, false, name).value, Compiled(k, true, name).value);
  }

  /** A mentioned column that its view does not show makes the engine reject the view-mode query. */
  lemma HiddenColumnRejected(k: Compiler, name: string, e: Engine, files: Files, before: Views, views: Views, c: Column)
    requires Prepared(k, name, files, before, views)
    requires c in Columns(Compiled(k, false, name).value) && !Exposed(k, c)
    ensures Compiled(k, true, name).Ok? && Denote(e, files, views, Compiled(k, true, name).value) == None
  {
    AllTablesResolve(k, name, files, before, views);
    var q, p := Compiled(k, false, name).value, Compiled(k, true, name).value;
    SameColumns(q, p);
    forall i | 0 <= i <= |p.joins| && Aliases(p)[i] == c.alias
      ensures c.name !in Resolve(files, views, SourceOfAlias(p, i)).value.columns
    {
      AliasTables(k, name, files, before, views, i);
      var columns := ViewColumns(FindObject(k.program, c.alias).value.properties);
      assert ViewSource(columns, c.name).None?;
    }
    assert !Binds(files, views, p, c);
  }

  // ----- the declared ontologies for which nothing can go wrong -----

  ghost predicate Declares(obj: ObjectDefinition, field: string) {
    exists p :: p in obj.properties && p.name == field
  }

  /** Properties keep their source name; filters, aggregates and relation keys use declared properties. */
  ghost predicate PlainObject(k: Compiler, obj: ObjectDefinition) {
    && (forall p :: p in obj.properties ==> SourceField(p) == p.name)
    && (forall f :: f in obj.filters ==> Declares(obj, f.field))
    && (forall a :: a in obj.aggregates ==> Declares(obj, a.field))
  }

  ghost predicate PlainProgram(k: Compiler) {
    && (forall s :: s in k.program && s.ObjectStatement? ==> PlainObject(k, s.obj))
    && (forall s :: s in k.program && s.RelationStatement? ==>
          && (FindObject(k.program, s.rel.from).Some? ==>
            Declares(FindObject(k.program, s.rel.from).value, s.rel.leftOn))
          && (FindObject(k.program, s.rel.to).Some? ==> Declares(FindObject(k.program, s.rel.to).value, s.rel.rightOn)))
  }

  lemma {:induction false} PlainSource(props: seq<Property>, field: string)
    requires forall p :: p in props ==> SourceField(p) == p.name
    requires exists p :: p in props && p.name == field
    ensures ViewSource(ViewColumns(props), field) == Some(field)
  {
    var columns := ViewColumns(props);
    assert columns[0].name == props[0].name && columns[0].source == SourceField(props[0]);
    if props[0].name != field {
      assert ViewColumns(props[1..]) == columns[1..];
      PlainSource(props[1..], field);
    } else {
      assert props[0] in props;
    }
  }

  lemma {:induction false} SelectColumns(obj: ObjectDefinition, props: seq<Property>, i: nat, c: Column)
    requires i < |PropertySelect(obj, props)| && c in ExprColumns(PropertySelect(obj, props)[i].expr)
    ensures exists p :: p in props && c == Column(obj.name, SourceField(p))
  {
    var front := PropertySelect(obj, props[..|props| - 1]);
    if i < |front| {
      SelectColumns(obj, props[..|props| - 1], i, c);
    } else {
      assert props[|props| - 1] in props;
    }
  }

  lemma {:induction false} GroupColumnsDeclared(
      obj: ObjectDefinition, props: seq<Property>, aggregated: set<string>, c: Column)
    requires c in GroupColumns(obj, props, aggregated)
    ensures exists p :: p in props && c == Column(obj.name, p.name)
  {
    var p := props[|props| - 1];
    if c in GroupColumns(obj, props[..|props| - 1], aggregated) {
      GroupColumnsDeclared(obj, props[..|props| - 1], aggregated, c);
    } else {
      assert p in props;
    }
  }

  lemma {:induction false} RelationsFromProgram(k: Compiler, statements: seq<Statement>, name: string)
    ensures forall i :: 0 <= i < |Relations(k, statements, name)| ==>
      RelationStatement(Relations(k, statements, name)[i]) in statements
  {
    if statements != [] { RelationsFromProgram(k, statements[..|statements| - 1], name); }
  }

  lemma PlainSelectColumn(k: Compiler, obj: ObjectDefinition, i: nat, c: Column)
    requires PlainObject(k, obj)
    requires var select := PropertySelect(obj, obj.properties) + AggregateItems(obj);
      i < |select| && c in ExprColumns(select[i].expr)
    ensures c.alias == obj.name && Declares(obj, c.name)
  {
    var front := PropertySelect(obj, obj.properties);
    if i < |front| {
      SelectColumns(obj, obj.properties, i, c);
    } else {
      assert obj.aggregates[i - |front|] in obj.aggregates;
    }
  }

  lemma PlainJoinColumn(k: Compiler, name: string, i: nat, c: Column)
    requires PlainProgram(k) && FindObject(k.program, name).Some?
    requires var rels := Relations(k, k.program, name);
      i < |rels| && (c == Column(rels[i].from, rels[i].leftOn) || c == Column(rels[i].to, rels[i].rightOn))
    ensures FindObject(k.program, c.alias).Some? && Declares(FindObject(k.program, c.alias).value, c.name)
  {
    RelationsHaveTargets(k, k.program, name);
    RelationsFromProgram(k, k.program, name);
    assert RelationStatement(Relations(k, k.program, name)[i]) in k.program;
  }

  lemma PlainColumn(k: Compiler, obj: ObjectDefinition, c: Column)
    requires PlainProgram(k) && FindObject(k.program, obj.name) == Some(obj)
    requires c in Columns(Assembled(k, false, obj))
    ensures FindObject(k.program, c.alias).Some? && Declares(FindObject(k.program, c.alias).value, c.name)
  {
    var q := Assembled(k, false, obj);
    assert PlainObject(k, obj);
    ColumnOrigin(q, c);
    if c in q.groupBy {
      GroupColumnsDeclared(obj, obj.properties, AggregatedFields(obj), c);
    } else if i :| 0 <= i < |q.conditions| && c == q.conditions[i].col {
      assert obj.filters[i] in obj.filters;
    } else if i :| 0 <= i < |q.joins| && (c == q.joins[i].left || c == q.joins[i].right) {
      PlainJoinColumn(k, obj.name, i, c);
    } else {
      var i :| 0 <= i < |q.select| && c in ExprColumns(q.select[i].expr);
      PlainSelectColumn(k, obj, i, c);
    }
  }

  /** For plain programs the two modes always agree. */
  lemma PlainProgramModesAgree(k: Compiler, name: string, e: Engine, files: Files, before: Views, views: Views)
    requires PlainProgram(k) && Prepared(k, name, files, before, views)
    ensures Compiled(k, true, name).Ok?
    ensures Denote(e, files, views, Compiled(k, true, name).value)
         == Denote(e, files, views, Compiled(k, false, name).value)
  {
    forall c | c in Columns(Compiled(k, false, name).value) ensures PassedThrough(k, c) {
      PlainColumn(k, FindObject(k.program, name).value, c);
      var obj := FindObject(k.program, c.alias).value;
      assert PlainObject(k, obj);
      PlainSource(obj.properties, c.name);
    }
    ViewModeDenotesInlineMode(k, name, e, files, before, views);
  }

  // ----- the compiler's loops -----

  method FindFirst(program: seq<Statement>, name: string) returns (r: Option<ObjectDefinition>)
    ensures r == FindObject(program, name)
  {
    var i := 0;
    while i < |program|
      invariant 0 <= i <= |program| && FindObject(program[i..], name) == FindObject(program, name)
    {
      if program[i].ObjectStatement? && program[i].obj.name == name {
        return Some(program[i].obj);
      }
      i := i + 1;
    }
    return None;
  }

  method BuildProperty(obj: ObjectDefinition, p: Property) returns (items: seq<SelectItem>)
    ensures items == PropertyItems(obj, p)
  {
    var source := if p.from == "" then p.name else p.from;
    var col := Column(obj.name, source);
    items := [];
    if p.predict {
      items := [SelectItem(Zero, p.name, "_probability"), SelectItem(NullLiteral, p.name, "_vector")];
    }
    ghost var predicted := items;
    for j := 0 to |obj.factors|
      invariant items == predicted + FactorItems(obj.factors)[..j]
    {
      items := items + [SelectItem(Zero, "_factor_" + obj.factors[j], "")];
    }
    assert FactorItems(obj.factors)[..|obj.factors|] == FactorItems(obj.factors);
    var clause := Ref(col);
    if |p.maps| > 0 {
      clause := Case(col, p.maps);
    }
    items := items + [SelectItem(clause, p.name, "")];
  }

  method BuildSelect(obj: ObjectDefinition) returns (items: seq<SelectItem>)
    ensures items == PropertySelect(obj, obj.properties)
  {
    items := [];
    for i := 0 to |obj.properties|
      invariant items == PropertySelect(obj, obj.properties[..i])
    {
      assert obj.properties[..i + 1][..i] == obj.properties[..i];
      var added := BuildProperty(obj, obj.properties[i]);
      items := items + added;
    }
    assert obj.properties[..|obj.properties|] == obj.properties;
  }

  lemma {:induction false} RelationsPrefix(k: Compiler, statements: seq<Statement>, n: nat, name: string)
    requires n <= |statements|
    ensures Relations(k, statements[..n], name) <= Relations(k, statements, name)
    decreases |statements| - n
  {
    if n < |statements| {
      assert statements[..n + 1][..n] == statements[..n];
      RelationsPrefix(k, statements, n + 1, name);
    } else {
      assert statements[..n] == statements;
    }
  }

  lemma {:induction false} RefusedFirst(k: Compiler, rels: seq<Relation>, i: nat)
    requires HasTargets(k, rels) && i < |rels|
    requires HasTargets(k, rels[..i]) && RefusedRelation(k, rels[..i]) == None
    requires !k.pathOk(FilePath(k, FindObject(k.program, rels[i].to).value.fromSource))
    ensures RefusedRelation(k, rels) == Some(rels[i].name)
  {
    if i > 0 {
      assert rels[..i][1..] == rels[1..][..i - 1];
      RefusedFirst(k, rels[1..], i - 1);
    }
  }

  lemma {:induction false} RefusedAppend(k: Compiler, rels: seq<Relation>, rel: Relation)
    requires HasTargets(k, rels) && HasTargets(k, rels + [rel]) && RefusedRelation(k, rels) == None
    requires FindObject(k.program, rel.to).Some?
    requires k.pathOk(FilePath(k, FindObject(k.program, rel.to).value.fromSource))
    ensures RefusedRelation(k, rels + [rel]) == None
  {
    if rels != [] {
      assert (rels + [rel])[1..] == rels[1..] + [rel];
      RefusedAppend(k, rels[1..], rel);
    } else {
      assert ([] + [rel])[1..] == [];
    }
  }

  method SourceOf(k: Compiler, useViews: bool, obj: ObjectDefinition) returns (r: Option<Source>)
    ensures r == if !useViews && !k.pathOk(FilePath(k, obj.fromSource)) then None else Some(ReadFrom(k, useViews, obj))
  {
    if useViews {
      return Some(View(obj.name));
    }
    var filePath := k.dataRoot + "/" + obj.fromSource + "/latest/*.parquet";
    return if k.pathOk(filePath) then Some(Parquet(filePath)) else None;
  }

  lemma RelationsStep(k: Compiler, i: nat, name: string)
    requires i < |k.program|
    ensures var s := k.program[i];
      Relations(k, k.program[..i + 1], name) == Relations(k, k.program[..i], name) +
        if s.RelationStatement? && s.rel.from == name && FindObject(k.program, s.rel.to).Some? then [s.rel] else []
    ensures Relations(k, k.program[..i + 1], name) <= Relations(k, k.program, name)
    ensures HasTargets(k, Relations(k, k.program[..i + 1], name))
  {
    assert k.program[..i + 1][..i] == k.program[..i];
    RelationsHaveTargets(k, k.program[..i + 1], name);
    RelationsPrefix(k, k.program, i + 1, name);
  }

  method BuildJoins(k: Compiler, useViews: bool, name: string) returns (r: Result<seq<Join>, Error>)
    ensures HasTargets(k, Relations(k, k.program, name))
    ensures r == var rels := Relations(k, k.program, name);
      if !useViews && RefusedRelation(k, rels).Some? then Err(BadRelationSource(RefusedRelation(k, rels).value))
      else Ok(Joins(k, useViews, rels))
  {
    RelationsHaveTargets(k, k.program, name);
    var joins := [];
    ghost var rels := [];
    for i := 0 to |k.program|
      invariant rels == Relations(k, k.program[..i], name) && HasTargets(k, rels)
      invariant joins == Joins(k, useViews, rels)
      invariant !useViews ==> RefusedRelation(k, rels) == None
    {
      RelationsStep(k, i, name);
      var s := k.program[i];
      if s.RelationStatement? && s.rel.from == name {
        var target := FindFirst(k.program, s.rel.to);
        if target.Some? {
          var source := SourceOf(k, useViews, target.value);
          if source.None? {
            ghost var all := Relations(k, k.program, name);
            assert all[|rels|] == s.rel && all[..|rels|] == rels;
            RefusedFirst(k, all, |rels|);
            return Err(BadRelationSource(s.rel.name));
          }
          if !useViews {
            RefusedAppend(k, rels, s.rel);
          }
          joins := joins + [Join(source.value, s.rel.to, Column(name, s.rel.leftOn), Column(s.rel.to, s.rel.rightOn))];
          rels := rels + [s.rel];
        }
      }
    }
    assert k.program[..|k.program|] == k.program;
    return Ok(joins);
  }

  method BuildConditions(k: Compiler, obj: ObjectDefinition) returns (r: Result<seq<Condition>, Error>)
    ensures r == if RefusedFilter(k, obj.filters).Some? then Err(BadFilterValue(RefusedFilter(k, obj.filters).value))
                 else Ok(Conditions(k, obj))
  {
    var conditions := [];
    var i := 0;
    while i < |obj.filters|
      invariant 0 <= i <= |obj.filters| && conditions == Conditions(k, obj)[..i]
      invariant RefusedFilter(k, obj.filters[i..]) == RefusedFilter(k, obj.filters)
    {
      var f := obj.filters[i];
      var quoted := false;
      if !k.isNumeric(f.value) {
        if !k.validFilterValue(f.value) {
          return Err(BadFilterValue(f.value));
        }
        quoted := true;
      }
      conditions := conditions + [Condition(Column(obj.name, f.field), SqlOperator(f.op), f.value, quoted)];
      i := i + 1;
    }
    assert Conditions(k, obj)[..i] == Conditions(k, obj);
    return Ok(conditions);
  }

  method BuildAggregates(obj: ObjectDefinition) returns (items: seq<SelectItem>, aggregated: set<string>)
    ensures items == AggregateItems(obj) && aggregated == AggregatedFields(obj)
  {
    items, aggregated := [], {};
    for i := 0 to |obj.aggregates|
      invariant items == AggregateItems(obj)[..i]
      invariant aggregated == set a | a in obj.aggregates[..i] :: a.field
    {
      var a := obj.aggregates[i];
      assert obj.aggregates[..i + 1] == obj.aggregates[..i] + [a];
      aggregated := aggregated + {a.field};
      items := items + [SelectItem(Call(a.func, Column(obj.name, a.field)), a.alias, "")];
    }
    assert AggregateItems(obj)[..|obj.aggregates|] == AggregateItems(obj);
    assert obj.aggregates[..|obj.aggregates|] == obj.aggregates;
  }

  method BuildGroupBy(obj: ObjectDefinition, aggregated: set<string>) returns (groupBy: seq<Column>)
    ensures groupBy == GroupColumns(obj, obj.properties, aggregated)
  {
    groupBy := [];
    for i := 0 to |obj.properties|
      invariant groupBy == GroupColumns(obj, obj.properties[..i], aggregated)
    {
      assert obj.properties[..i + 1][..i] == obj.properties[..i];
      if obj.properties[i].name !in aggregated {
        groupBy := groupBy + [Column(obj.name, obj.properties[i].name)];
      }
    }
    assert obj.properties[..|obj.properties|] == obj.properties;
  }

  method CompileObject(k: Compiler, useViews: bool, name: string) returns (r: Result<Query, Error>)
    ensures r == Compiled(k, useViews, name)
  {
    var found := FindFirst(k.program, name);
    if found.None? {
      return Err(ObjectNotFound);
    }
    var obj := found.value;
    var select := BuildSelect(obj);
    var joins := BuildJoins(k, useViews, name);
    if joins.Err? {
      return Err(joins.error);
    }
    var aggregates, aggregated := BuildAggregates(obj);
    var groupBy := [];
    if |obj.aggregates| > 0 {
      groupBy := BuildGroupBy(obj, aggregated);
    }
    var conditions := BuildConditions(k, obj);
    if conditions.Err? {
      return Err(conditions.error);
    }
    var from := SourceOf(k, useViews, obj);
    if from.None? {
      return Err(BadSource(obj.name));
    }
    return Ok(Query(select + aggregates, from.value, name, joins.value, conditions.value, groupBy));
  }

  method CompileDDL(k: Compiler) returns (r: Result<seq<ViewDefinition>, Error>)
    ensures r == CompiledViews(k, k.program)
  {
    var ddls := [];
    for i := 0 to |k.program|
      invariant CompiledViews(k, k.program[..i]) == Ok(ddls)
    {
      assert k.program[..i + 1][..i] == k.program[..i];
      var s := k.program[i];
      if s.ObjectStatement? {
        var columns := [];
        for j := 0 to |s.obj.properties|
          invariant columns == ViewColumns(s.obj.properties)[..j]
        {
          var p := s.obj.properties[j];
          var source := if p.from == "" then p.name else p.from;
          columns := columns + [ViewColumn(source, p.name)];
        }
        assert ViewColumns(s.obj.properties)[..|s.obj.properties|] == ViewColumns(s.obj.properties);
        if !k.pathOk(s.obj.fromSource) {
          RefusedViews(k, i);
          return Err(BadSource(s.obj.name));
        }
        ddls := ddls + [ViewDefinition(s.obj.name, columns, k.dataRoot + "/" + s.obj.fromSource + "/latest/*.parquet")];
      }
    }
    assert k.program[..|k.program|] == k.program;
    return Ok(ddls);
  }

  lemma RefusedViews(k: Compiler, i: nat)
    requires i < |k.program| && CompiledViews(k, k.program[..i]).Ok?
    requires k.program[i].ObjectStatement? && !k.pathOk(k.program[i].obj.fromSource)
    ensures CompiledViews(k, k.program) == Err(BadSource(k.program[i].obj.name))
  {
    assert k.program[..i + 1][..i] == k.program[..i];
    var n := i + 1;
    while n < |k.program|
      invariant i < n <= |k.program|
      invariant CompiledViews(k, k.program[..n]) == Err(BadSource(k.program[i].obj.name))
    {
      assert k.program[..n + 1][..n] == k.program[..n];
      n := n + 1;
    }
    assert k.program[..n] == k.program;
  }
}
