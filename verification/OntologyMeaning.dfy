/**
 * What the compiled query of an object denotes, read off the object's declaration
 * (internal/dsl/compiler.go, CompileObject).
 *
 * Nothing but the object's own columns is ever selected, filtered or grouped, and every join key on the left
 * is an own column.  So a relation only repeats a row, once per match and at least once; the filters keep
 * rows; and an object with aggregates has one row per distinct value of its other properties.
 */
module OntologyMeaning {
  import opened Std
  import opened SqlQuery
  import opened OntologyCompiler

  // ----- the own rows of a list of environments -----

  function OwnRow(env: Env, alias: string): Row {
    if alias in env then env[alias] else map[]
  }

  function Own(envs: seq<Env>, alias: string): (rows: seq<Row>) {
    seq(|envs|, i requires 0 <= i < |envs| => OwnRow(envs[i], alias))
  }

  lemma OwnConcat(a: seq<Env>, b: seq<Env>, alias: string)
    ensures Own(a + b, alias) == Own(a, alias) + Own(b, alias)
  {
  }

  lemma OwnFirst(envs: seq<Env>, alias: string)
    requires envs != []
    ensures Own(envs, alias) == [OwnRow(envs[0], alias)] + Own(envs[1..], alias)
  {
  }

  // ----- joins repeat rows -----

  /** A relation of the object: its key, the target's key and the target's rows. */
  datatype Link = Link(left: string, right: string, rows: seq<Row>)

  function MatchCount(e: Engine, row: Row, link: Link): nat
    decreases |link.rows|
  {
    if link.rows == [] then 0
    else
      (if e.equal(Get(row, link.left), Get(link.rows[0], link.right)) then 1 else 0)
      + MatchCount(e, row, link.(rows := link.rows[1..]))
  }

  /** How often a left join repeats a row. */
  function Times(e: Engine, row: Row, link: Link): nat {
    if MatchCount(e, row, link) == 0 then 1 else MatchCount(e, row, link)
  }

  function Multiplicity(e: Engine, row: Row, links: seq<Link>): nat {
    if links == [] then 1
    else Multiplicity(e, row, links[..|links| - 1]) * Times(e, row, links[|links| - 1])
  }

  function Repeat(row: Row, n: nat): seq<Row> {
    if n == 0 then [] else [row] + Repeat(row, n - 1)
  }

  /** Each row as often as its relations repeat it. */
  function Expand(e: Engine, links: seq<Link>, rows: seq<Row>): seq<Row> {
    if rows == [] then []
    else Repeat(rows[0], Multiplicity(e, rows[0], links)) + Expand(e, links, rows[1..])
  }

  lemma {:induction false} RepeatConcat(row: Row, m: nat, n: nat)
    ensures Repeat(row, m) + Repeat(row, n) == Repeat(row, m + n)
  {
    if m > 0 {
      RepeatConcat(row, m - 1, n);
      assert Repeat(row, m) + Repeat(row, n) == [row] + (Repeat(row, m - 1) + Repeat(row, n));
    }
  }

  lemma {:induction false} ExpandConcat(e: Engine, links: seq<Link>, a: seq<Row>, b: seq<Row>)
    ensures Expand(e, links, a + b) == Expand(e, links, a) + Expand(e, links, b)
  {
    if a == [] {
      assert a + b == b;
    } else {
      assert (a + b)[0] == a[0] && (a + b)[1..] == a[1..] + b;
      ExpandConcat(e, links, a[1..], b);
    }
  }

  lemma OneLink(e: Engine, row: Row, link: Link)
    ensures Multiplicity(e, row, [link]) == Times(e, row, link)
  {
    assert [link][..0] == [];
  }

  lemma {:induction false} ExpandRepeated(e: Engine, row: Row, m: nat, link: Link)
    ensures Expand(e, [link], Repeat(row, m)) == Repeat(row, m * Times(e, row, link))
  {
    if m > 0 {
      ExpandRepeated(e, row, m - 1, link);
      OneLink(e, row, link);
      var t := Times(e, row, link);
      assert Repeat(row, m)[1..] == Repeat(row, m - 1);
      RepeatConcat(row, t, (m - 1) * t);
      OneMore(m, t);
    }
  }

  lemma OneMore(m: nat, t: nat)
    requires m > 0
    ensures t + (m - 1) * t == m * t
  {
  }

  /** Expanding by one more relation multiplies. */
  lemma {:induction false} ExpandMore(e: Engine, links: seq<Link>, link: Link, rows: seq<Row>)
    ensures Expand(e, [link], Expand(e, links, rows)) == Expand(e, links + [link], rows)
  {
    if rows != [] {
      var row := rows[0];
      var m := Multiplicity(e, row, links);
      assert (links + [link])[..|links|] == links;
      ExpandConcat(e, [link], Repeat(row, m), Expand(e, links, rows[1..]));
      ExpandRepeated(e, row, m, link);
      ExpandMore(e, links, link, rows[1..]);
    }
  }

  lemma {:induction false} ExpandByNone(e: Engine, rows: seq<Row>)
    ensures Expand(e, [], rows) == rows
  {
    if rows != [] {
      ExpandByNone(e, rows[1..]);
      assert Repeat(rows[0], 1) == [rows[0]] + Repeat(rows[0], 0);
    }
  }

  /** A join from the object to another alias. */
  predicate FromOwn(j: Join, alias: string) {
    j.left.alias == alias && j.right.alias == j.alias && j.alias != alias
  }

  function LinkOf(j: Join, rows: seq<Row>): Link {
    Link(j.left.name, j.right.name, rows)
  }

  lemma {:induction false} OwnMatches(e: Engine, env: Env, rows: seq<Row>, j: Join, alias: string)
    requires FromOwn(j, alias)
    ensures Own(Matches(e, env, rows, j), alias)
         == Repeat(OwnRow(env, alias), MatchCount(e, OwnRow(env, alias), LinkOf(j, rows)))
  {
    if rows != [] {
      OwnMatches(e, env, rows[1..], j, alias);
      var joined := env[j.alias := rows[0]];
      assert OwnRow(joined, alias) == OwnRow(env, alias);
      if e.equal(Lookup(joined, j.left), Lookup(joined, j.right)) {
        OwnConcat([joined], Matches(e, env, rows[1..], j), alias);
        assert Own([joined], alias) == [OwnRow(env, alias)];
      }
    }
  }

  lemma {:induction false} OwnLeftJoin(e: Engine, envs: seq<Env>, rows: seq<Row>, j: Join, alias: string)
    requires FromOwn(j, alias)
    ensures Own(LeftJoin(e, envs, rows, j), alias) == Expand(e, [LinkOf(j, rows)], Own(envs, alias))
  {
    if envs != [] {
      var env, row := envs[0], OwnRow(envs[0], alias);
      OwnMatches(e, env, rows, j, alias);
      var matches := Matches(e, env, rows, j);
      var here := if matches == [] then [env[j.alias := map[]]] else matches;
      assert |Own(matches, alias)| == |matches|;
      RepeatLength(row, MatchCount(e, row, LinkOf(j, rows)));
      OneLink(e, row, LinkOf(j, rows));
      assert Own(here, alias) == Repeat(row, Times(e, row, LinkOf(j, rows))) by {
        if matches == [] {
          assert Own(here, alias) == [row] == Repeat(row, 1);
        }
      }
      OwnConcat(here, LeftJoin(e, envs[1..], rows, j), alias);
      OwnLeftJoin(e, envs[1..], rows, j, alias);
      OwnFirst(envs, alias);
      assert Own(envs, alias)[1..] == Own(envs[1..], alias);
    }
  }

  lemma {:induction false} RepeatLength(row: Row, n: nat)
    ensures |Repeat(row, n)| == n
  {
    if n > 0 { RepeatLength(row, n - 1); }
  }

  function RowsAt(files: Files, views: Views, s: Source): seq<Row> {
    var t := Resolve(files, views, s);
    if t.Some? then t.value.rows else []
  }

  function LinksOf(files: Files, views: Views, joins: seq<Join>): (links: seq<Link>) {
    seq(|joins|, i requires 0 <= i < |joins| => LinkOf(joins[i], RowsAt(files, views, joins[i].source)))
  }

  lemma {:induction false} OwnJoinAll(
      e: Engine, files: Files, views: Views, envs: seq<Env>, joins: seq<Join>, alias: string)
    requires forall i :: 0 <= i < |joins| ==> Resolve(files, views, joins[i].source).Some?
    requires forall i :: 0 <= i < |joins| ==> FromOwn(joins[i], alias)
    ensures Own(JoinAll(e, files, views, envs, joins), alias) ==
      Expand(e, LinksOf(files, views, joins), Own(envs, alias))
  {
    if joins == [] {
      ExpandByNone(e, Own(envs, alias));
    } else {
      var n := |joins| - 1;
      var front, j := joins[..n], joins[n];
      OwnJoinAll(e, files, views, envs, front, alias);
      var rows := Resolve(files, views, j.source).value.rows;
      OwnLeftJoin(e, JoinAll(e, files, views, envs, front), rows, j, alias);
      ExpandMore(e, LinksOf(files, views, front), LinkOf(j, rows), Own(envs, alias));
      assert LinksOf(files, views, joins) == LinksOf(files, views, front) + [LinkOf(j, rows)];
    }
  }

  // ----- filters keep rows -----

  predicate RowPasses(e: Engine, k: Compiler, obj: ObjectDefinition, row: Row) {
    forall i :: 0 <= i < |obj.filters| ==>
      var f := obj.filters[i]; e.holds(Get(row, f.field), SqlOperator(f.op), f.value, !k.isNumeric(f.value))
  }

  function Passing(e: Engine, k: Compiler, obj: ObjectDefinition, rows: seq<Row>): (r: seq<Row>) {
    if rows == [] then []
    else (if RowPasses(e, k, obj, rows[0]) then [rows[0]] else []) + Passing(e, k, obj, rows[1..])
  }

  lemma ConditionsAreFilters(e: Engine, k: Compiler, obj: ObjectDefinition, env: Env)
    ensures Satisfies(e, env, Conditions(k, obj)) <==> RowPasses(e, k, obj, OwnRow(env, obj.name))
  {
    var conditions := Conditions(k, obj);
    assert forall i :: 0 <= i < |obj.filters| ==> conditions[i] == FilterCondition(k, obj, obj.filters[i]);
  }

  lemma {:induction false} OwnWhere(e: Engine, k: Compiler, obj: ObjectDefinition, envs: seq<Env>)
    ensures Own(Where(e, envs, Conditions(k, obj)), obj.name) == Passing(e, k, obj, Own(envs, obj.name))
  {
    if envs != [] {
      ConditionsAreFilters(e, k, obj, envs[0]);
      OwnWhere(e, k, obj, envs[1..]);
      OwnFirst(envs, obj.name);
      var rows := Own(envs, obj.name);
      assert rows[0] == OwnRow(envs[0], obj.name) && rows[1..] == Own(envs[1..], obj.name);
      if RowPasses(e, k, obj, rows[0]) {
        OwnConcat([envs[0]], Where(e, envs[1..], Conditions(k, obj)), obj.name);
        assert Own([envs[0]], obj.name) == [rows[0]];
      }
    }
  }

  // ----- what is selected -----

  function PropertyValue(e: Engine, p: Property, row: Row): Value {
    var v := Get(row, SourceField(p));
    if p.maps == [] then v else CaseOf(e, p.maps, v)
  }

  /** A property's output: prediction and factor placeholders, then its value. */
  function PropertyOutput(e: Engine, obj: ObjectDefinition, p: Property, row: Row): seq<Value> {
    (if p.predict then [Number(0.0), Null] else []) + seq(|obj.factors|, _ => Number(0.0)) + [PropertyValue(e, p, row)]
  }

  function RowValues(e: Engine, obj: ObjectDefinition, props: seq<Property>, row: Row): seq<Value> {
    if props == [] then []
    else RowValues(e, obj, props[..|props| - 1], row) + PropertyOutput(e, obj, props[|props| - 1], row)
  }

  function FieldValues(rows: seq<Row>, field: string): seq<Value> {
    seq(|rows|, i requires 0 <= i < |rows| => Get(rows[i], field))
  }

  function AggregateValues(e: Engine, obj: ObjectDefinition, rows: seq<Row>): seq<Value> {
    seq(|obj.aggregates|, i requires 0 <= i < |obj.aggregates| =>
      e.aggregate(obj.aggregates[i].func, FieldValues(rows, obj.aggregates[i].field)))
  }

  /** The output of a group: its properties, which it shares, and its aggregates. */
  function GroupOutput(e: Engine, obj: ObjectDefinition, rows: seq<Row>): seq<Value> {
    (if rows == [] then [] else RowValues(e, obj, obj.properties, rows[0])) + AggregateValues(e, obj, rows)
  }

  lemma OutputConcat(e: Engine, group: seq<Env>, a: seq<SelectItem>, b: seq<SelectItem>)
    ensures Output(e, group, a + b) == Output(e, group, a) + Output(e, group, b)
  {
  }

  lemma OutputOfProperty(e: Engine, obj: ObjectDefinition, p: Property, group: seq<Env>)
    requires group != []
    ensures Output(e, group, PropertyItems(obj, p)) == PropertyOutput(e, obj, p, OwnRow(group[0], obj.name))
  {
  }

  lemma {:induction false} OutputOfProperties(e: Engine, obj: ObjectDefinition, props: seq<Property>, group: seq<Env>)
    requires group != []
    ensures Output(e, group, PropertySelect(obj, props)) == RowValues(e, obj, props, OwnRow(group[0], obj.name))
  {
    if props != [] {
      var front, p := props[..|props| - 1], props[|props| - 1];
      OutputOfProperties(e, obj, front, group);
      OutputOfProperty(e, obj, p, group);
      OutputConcat(e, group, PropertySelect(obj, front), PropertyItems(obj, p));
    }
  }

  lemma OutputOfAggregates(e: Engine, obj: ObjectDefinition, group: seq<Env>)
    ensures Output(e, group, AggregateItems(obj)) == AggregateValues(e, obj, Own(group, obj.name))
  {
    forall i | 0 <= i < |obj.aggregates|
      ensures Values(group, Column(obj.name, obj.aggregates[i].field))
           == FieldValues(Own(group, obj.name), obj.aggregates[i].field)
    {
    }
  }

  lemma OutputOfGroup(e: Engine, obj: ObjectDefinition, group: seq<Env>)
    requires group != [] || obj.properties == []
    ensures Output(e, group, PropertySelect(obj, obj.properties) + AggregateItems(obj))
         == GroupOutput(e, obj, Own(group, obj.name))
  {
    OutputConcat(e, group, PropertySelect(obj, obj.properties), AggregateItems(obj));
    OutputOfAggregates(e, obj, group);
    if group != [] { OutputOfProperties(e, obj, obj.properties, group); }
  }

  // ----- groups -----

  /** The properties that are not aggregated, in order. */
  function GroupFields(props: seq<Property>, aggregated: set<string>): (fields: seq<string>) {
    if props == [] then []
    else
      var p := props[|props| - 1];
      GroupFields(props[..|props| - 1], aggregated) + if p.name in aggregated then [] else [p.name]
  }

  function RowKey(row: Row, fields: seq<string>): (key: seq<Value>) {
    seq(|fields|, i requires 0 <= i < |fields| => Get(row, fields[i]))
  }

  /** The distinct keys, first occurrence first. */
  function RowKeys(rows: seq<Row>, fields: seq<string>): (keys: seq<seq<Value>>) {
    if rows == [] then []
    else
      var keys, key := RowKeys(rows[..|rows| - 1], fields), RowKey(rows[|rows| - 1], fields);
      if key in keys then keys else keys + [key]
  }

  function RowsWith(rows: seq<Row>, fields: seq<string>, key: seq<Value>): (r: seq<Row>) {
    if rows == [] then []
    else (if RowKey(rows[0], fields) == key then [rows[0]] else []) + RowsWith(rows[1..], fields, key)
  }

  /** Every key that occurs is listed, once. */
  lemma {:induction false} RowKeysExact(rows: seq<Row>, fields: seq<string>, key: seq<Value>)
    ensures NoDup(RowKeys(rows, fields))
    ensures key in RowKeys(rows, fields) <==> exists i :: 0 <= i < |rows| && RowKey(rows[i], fields) == key
  {
    if rows != [] {
      var n := |rows| - 1;
      RowKeysExact(rows[..n], fields, key);
      assert forall i :: 0 <= i < n ==> rows[..n][i] == rows[i];
    }
  }

  lemma {:induction false} RowsWithKey(rows: seq<Row>, fields: seq<string>, key: seq<Value>)
    ensures forall i :: 0 <= i < |RowsWith(rows, fields, key)| ==> RowKey(RowsWith(rows, fields, key)[i], fields) == key
    ensures RowsWith(rows, fields, key) == [] <==> forall i :: 0 <= i < |rows| ==> RowKey(rows[i], fields) != key
  {
    if rows != [] {
      RowsWithKey(rows[1..], fields, key);
      assert forall i :: 1 <= i < |rows| ==> rows[i] == rows[1..][i - 1];
      assert forall i :: 0 <= i < |rows[1..]| ==> rows[1..][i] == rows[i + 1];
    }
  }

  lemma {:induction false} GroupColumnsAreFields(obj: ObjectDefinition, props: seq<Property>, aggregated: set<string>)
    ensures |GroupColumns(obj, props, aggregated)| == |GroupFields(props, aggregated)|
    ensures forall i :: 0 <= i < |GroupFields(props, aggregated)| ==>
      GroupColumns(obj, props, aggregated)[i] == Column(obj.name, GroupFields(props, aggregated)[i])
  {
    if props != [] { GroupColumnsAreFields(obj, props[..|props| - 1], aggregated); }
  }

  ghost predicate SameColumnsAsFields(columns: seq<Column>, fields: seq<string>, alias: string) {
    |columns| == |fields| && forall i :: 0 <= i < |fields| ==> columns[i] == Column(alias, fields[i])
  }

  lemma OwnKey(env: Env, columns: seq<Column>, fields: seq<string>, alias: string)
    requires SameColumnsAsFields(columns, fields, alias)
    ensures Key(env, columns) == RowKey(OwnRow(env, alias), fields)
  {
  }

  lemma {:induction false} OwnKeys(envs: seq<Env>, columns: seq<Column>, fields: seq<string>, alias: string)
    requires SameColumnsAsFields(columns, fields, alias)
    ensures Keys(envs, columns) == RowKeys(Own(envs, alias), fields)
  {
    if envs != [] {
      var n := |envs| - 1;
      OwnKeys(envs[..n], columns, fields, alias);
      OwnKey(envs[n], columns, fields, alias);
      assert Own(envs, alias)[..n] == Own(envs[..n], alias);
    }
  }

  lemma {:induction false} OwnGroup(
      envs: seq<Env>, columns: seq<Column>, fields: seq<string>, alias: string, key: seq<Value>)
    requires SameColumnsAsFields(columns, fields, alias)
    ensures Own(Group(envs, columns, key), alias) == RowsWith(Own(envs, alias), fields, key)
  {
    if envs != [] {
      OwnGroup(envs[1..], columns, fields, alias, key);
      OwnKey(envs[0], columns, fields, alias);
      OwnFirst(envs, alias);
      var rows := Own(envs, alias);
      assert rows[0] == OwnRow(envs[0], alias) && rows[1..] == Own(envs[1..], alias);
      if Key(envs[0], columns) == key {
        OwnConcat([envs[0]], Group(envs[1..], columns, key), alias);
        assert Own([envs[0]], alias) == [rows[0]];
      }
    }
  }

  // ----- when the engine takes the select list -----

  /** The field is a declared property that no aggregate uses. */
  ghost predicate Groupable(obj: ObjectDefinition, field: string) {
    Declares(obj, field) && field !in AggregatedFields(obj)
  }

  lemma {:induction false} GroupColumnsExact(
      obj: ObjectDefinition, props: seq<Property>, aggregated: set<string>, field: string)
    ensures Column(obj.name, field) in GroupColumns(obj, props, aggregated)
       <==> field !in aggregated && exists p :: p in props && p.name == field
  {
    if props != [] {
      var front, p := props[..|props| - 1], props[|props| - 1];
      GroupColumnsExact(obj, front, aggregated, field);
      assert forall x :: x in props <==> x in front || x == p;
    }
  }

  /** The select list of the properties: never an aggregate, and each property's column. */
  lemma {:induction false} PropertySelectExact(obj: ObjectDefinition, props: seq<Property>)
    ensures forall i :: 0 <= i < |PropertySelect(obj, props)| ==> !PropertySelect(obj, props)[i].expr.Call?
    ensures forall p :: p in props ==>
      exists i :: 0 <= i < |PropertySelect(obj, props)| && PropertySelect(obj, props)[i].expr == PropertyExpr(obj, p)
  {
    if props != [] {
      var front, last := props[..|props| - 1], props[|props| - 1];
      PropertySelectExact(obj, front);
      var before, all := PropertySelect(obj, front), PropertySelect(obj, props);
      assert forall i :: 0 <= i < |before| ==> all[i] == before[i];
      assert all[|all| - 1].expr == PropertyExpr(obj, last);
    }
  }

  lemma SelectHasCall(k: Compiler, useViews: bool, obj: ObjectDefinition)
    ensures HasCall(Assembled(k, useViews, obj).select) <==> obj.aggregates != []
  {
    PropertySelectExact(obj, obj.properties);
    var front, select := PropertySelect(obj, obj.properties), Assembled(k, useViews, obj).select;
    if obj.aggregates != [] { assert select[|front|] == AggregateItems(obj)[0]; }
  }

  lemma GroupByExact(k: Compiler, useViews: bool, obj: ObjectDefinition, field: string)
    requires obj.aggregates != []
    ensures Column(obj.name, field) in Assembled(k, useViews, obj).groupBy <==> Groupable(obj, field)
  {
    GroupColumnsExact(obj, obj.properties, AggregatedFields(obj), field);
  }

  predicate Selects(item: SelectItem, c: Column) {
    (item.expr.Ref? || item.expr.Case?) && item.expr.col == c
  }

  /** The selected columns are exactly the source fields of the properties. */
  lemma SelectedColumnsExact(k: Compiler, useViews: bool, obj: ObjectDefinition, c: Column)
    ensures var select := Assembled(k, useViews, obj).select;
      (exists i :: 0 <= i < |select| && Selects(select[i], c))
      <==> exists p :: p in obj.properties && c == Column(obj.name, SourceField(p))
  {
    var front, select := PropertySelect(obj, obj.properties), Assembled(k, useViews, obj).select;
    PropertySelectExact(obj, obj.properties);
    if p :| p in obj.properties && c == Column(obj.name, SourceField(p)) {
      var i :| 0 <= i < |front| && front[i].expr == PropertyExpr(obj, p);
      assert select[i] == front[i];
    }
    if i :| 0 <= i < |select| && Selects(select[i], c) {
      assert i < |front| && select[i] == front[i];
      SelectColumns(obj, obj.properties, i, c);
    }
  }

  /** The select list is grouped properly exactly when every source field is a property without aggregate. */
  lemma GroupsCoveredIff(k: Compiler, useViews: bool, obj: ObjectDefinition)
    ensures GroupsCovered(Assembled(k, useViews, obj))
       <==> obj.aggregates == [] || forall p :: p in obj.properties ==> Groupable(obj, SourceField(p))
  {
    var q := Assembled(k, useViews, obj);
    SelectHasCall(k, useViews, obj);
    if obj.aggregates != [] {
      if GroupsCovered(q) {
        forall p | p in obj.properties ensures Groupable(obj, SourceField(p)) {
          SelectedColumnsExact(k, useViews, obj, Column(obj.name, SourceField(p)));
          GroupByExact(k, useViews, obj, SourceField(p));
        }
      } else {
        var i :| 0 <= i < |q.select| && (q.select[i].expr.Ref? || q.select[i].expr.Case?) &&
          q.select[i].expr.col !in q.groupBy;
        assert Selects(q.select[i], q.select[i].expr.col);
        SelectedColumnsExact(k, useViews, obj, q.select[i].expr.col);
        GroupByExact(k, useViews, obj, q.select[i].expr.col.name);
      }
    }
  }

  const OPERATORS: set<string> := {"eq", "neq", "gt", "gte", "lt", "lte", "like"}

  lemma KnownOperator(op: string)
    ensures SqlOperator(op) != "" <==> op in OPERATORS
  {
  }

  ghost predicate NoSuffix(items: seq<SelectItem>) {
    forall i :: 0 <= i < |items| ==> items[i].suffix == ""
  }

  lemma NoSuffixConcat(a: seq<SelectItem>, b: seq<SelectItem>)
    ensures NoSuffix(a + b) <==> NoSuffix(a) && NoSuffix(b)
  {
    if NoSuffix(a + b) {
      assert forall i :: 0 <= i < |a| ==> a[i] == (a + b)[i];
      assert forall i :: 0 <= i < |b| ==> b[i] == (a + b)[|a| + i];
    }
  }

  lemma PropertySuffix(obj: ObjectDefinition, p: Property)
    ensures NoSuffix(PropertyItems(obj, p)) <==> !p.predict
  {
    if p.predict { assert PropertyItems(obj, p)[0].suffix == "_probability"; }
  }

  lemma {:induction false} PropertySuffixes(obj: ObjectDefinition, props: seq<Property>)
    ensures NoSuffix(PropertySelect(obj, props)) <==> forall p :: p in props ==> !p.predict
  {
    if props != [] {
      var front, last := props[..|props| - 1], props[|props| - 1];
      PropertySuffixes(obj, front);
      PropertySuffix(obj, last);
      NoSuffixConcat(PropertySelect(obj, front), PropertyItems(obj, last));
      assert forall p :: p in props <==> p in front || p == last;
    }
  }

  /** The query parses exactly when no property is predicted and every filter uses one of the seven operators. */
  lemma ParsesIff(k: Compiler, useViews: bool, obj: ObjectDefinition)
    ensures Parses(Assembled(k, useViews, obj)) <==>
      && (forall p :: p in obj.properties ==> !p.predict)
      && (forall f :: f in obj.filters ==> f.op in OPERATORS)
  {
    var q := Assembled(k, useViews, obj);
    PropertySuffixes(obj, obj.properties);
    NoSuffixConcat(PropertySelect(obj, obj.properties), AggregateItems(obj));
    forall i | 0 <= i < |obj.filters| ensures q.conditions[i].op != "" <==> obj.filters[i].op in OPERATORS {
      assert q.conditions[i] == FilterCondition(k, obj, obj.filters[i]);
      KnownOperator(obj.filters[i].op);
    }
    assert NoSuffix(q.select) <==> forall i :: 0 <= i < |q.select| ==> q.select[i].suffix == "";
  }

  /** A predicted property or an unknown filter operator makes the query unreadable, in either mode. */
  lemma UnparsedRejected(k: Compiler, useViews: bool, obj: ObjectDefinition, e: Engine, files: Files, views: Views)
    requires (exists p :: p in obj.properties && p.predict) || (exists f :: f in obj.filters && f.op !in OPERATORS)
    ensures Denote(e, files, views, Assembled(k, useViews, obj)) == None
  {
    ParsesIff(k, useViews, obj);
  }

  /** An aggregate over a property that is selected under its own name is rejected, in either mode. */
  lemma AggregatedPropertyRejected(
      k: Compiler, useViews: bool, obj: ObjectDefinition, p: Property, a: Aggregate,
      e: Engine, files: Files, views: Views)
    requires p in obj.properties && a in obj.aggregates && SourceField(p) == a.field
    ensures Denote(e, files, views, Assembled(k, useViews, obj)) == None
  {
    GroupsCoveredIff(k, useViews, obj);
    assert a.field in AggregatedFields(obj);
  }

  // ----- the meaning of an object -----

  /** The output for rows that passed the filters: one per row, or one per group. */
  function OutputRows(e: Engine, obj: ObjectDefinition, rows: seq<Row>): (r: seq<seq<Value>>) {
    var fields := GroupFields(obj.properties, AggregatedFields(obj));
    if obj.aggregates == [] then
      seq(|rows|, i requires 0 <= i < |rows| => RowValues(e, obj, obj.properties, rows[i]))
    else if fields == [] then
      [GroupOutput(e, obj, rows)]
    else
      var keys := RowKeys(rows, fields);
      seq(|keys|, i requires 0 <= i < |keys| => GroupOutput(e, obj, RowsWith(rows, fields, keys[i])))
  }

  lemma ProjectPlain(e: Engine, k: Compiler, useViews: bool, obj: ObjectDefinition, envs: seq<Env>)
    requires obj.aggregates == []
    ensures Project(e, envs, Assembled(k, useViews, obj)) == OutputRows(e, obj, Own(envs, obj.name))
  {
    SelectHasCall(k, useViews, obj);
    var q := Assembled(k, useViews, obj);
    assert q.select == PropertySelect(obj, obj.properties);
    forall i | 0 <= i < |envs|
      ensures Output(e, [envs[i]], q.select) == RowValues(e, obj, obj.properties, OwnRow(envs[i], obj.name))
    {
      OutputOfProperties(e, obj, obj.properties, [envs[i]]);
    }
  }

  lemma NoFieldNoProperty(k: Compiler, useViews: bool, obj: ObjectDefinition)
    requires obj.aggregates != [] && GroupsCovered(Assembled(k, useViews, obj))
    requires GroupFields(obj.properties, AggregatedFields(obj)) == []
    ensures obj.properties == []
  {
    GroupsCoveredIff(k, useViews, obj);
    GroupColumnsAreFields(obj, obj.properties, AggregatedFields(obj));
    if obj.properties != [] {
      var p := obj.properties[0];
      assert Groupable(obj, SourceField(p));
      GroupColumnsExact(obj, obj.properties, AggregatedFields(obj), SourceField(p));
    }
  }

  lemma ProjectGroups(e: Engine, k: Compiler, useViews: bool, obj: ObjectDefinition, envs: seq<Env>)
    requires obj.aggregates != [] && GroupsCovered(Assembled(k, useViews, obj))
    ensures Project(e, envs, Assembled(k, useViews, obj)) == OutputRows(e, obj, Own(envs, obj.name))
  {
    SelectHasCall(k, useViews, obj);
    var fields, q := GroupFields(obj.properties, AggregatedFields(obj)), Assembled(k, useViews, obj);
    GroupColumnsAreFields(obj, obj.properties, AggregatedFields(obj));
    if fields == [] {
      NoFieldNoProperty(k, useViews, obj);
      OutputOfGroup(e, obj, envs);
    } else {
      OwnKeys(envs, q.groupBy, fields, obj.name);
      var rows, keys := Own(envs, obj.name), Keys(envs, q.groupBy);
      forall i | 0 <= i < |keys|
        ensures Output(e, Group(envs, q.groupBy, keys[i]), q.select) ==
          GroupOutput(e, obj, RowsWith(rows, fields, keys[i]))
      {
        OwnGroup(envs, q.groupBy, fields, obj.name, keys[i]);
        RowKeysExact(rows, fields, keys[i]);
        RowsWithKey(rows, fields, keys[i]);
        assert keys[i] in keys;
        assert |Own(Group(envs, q.groupBy, keys[i]), obj.name)| == |Group(envs, q.groupBy, keys[i])|;
        OutputOfGroup(e, obj, Group(envs, q.groupBy, keys[i]));
      }
    }
  }

  /** The rows of an object in a mode: those of its table, as often as its relations repeat them. */
  function RelatedRows(
      e: Engine, k: Compiler, useViews: bool, obj: ObjectDefinition, files: Files, views: Views): seq<Row> {
    Expand(e, DeclaredLinks(k, useViews, obj, files, views), RowsAt(files, views, ReadFrom(k, useViews, obj)))
  }

  function DeclaredLinks(
      k: Compiler, useViews: bool, obj: ObjectDefinition, files: Files, views: Views): (links: seq<Link>) {
    var rels := Relations(k, k.program, obj.name);
    RelationsHaveTargets(k, k.program, obj.name);
    seq(|rels|, i requires 0 <= i < |rels| =>
      var target := FindObject(k.program, rels[i].to).value;
      Link(rels[i].leftOn, rels[i].rightOn, RowsAt(files, views, ReadFrom(k, useViews, target))))
  }

  lemma JoinsFromOwn(k: Compiler, useViews: bool, obj: ObjectDefinition, files: Files, views: Views)
    requires NoDup(Aliases(Assembled(k, useViews, obj)))
    ensures var joins := Assembled(k, useViews, obj).joins;
      && (forall i :: 0 <= i < |joins| ==> FromOwn(joins[i], obj.name))
      && LinksOf(files, views, joins) == DeclaredLinks(k, useViews, obj, files, views)
  {
    RelationsHaveTargets(k, k.program, obj.name);
    var q := Assembled(k, useViews, obj);
    forall i | 0 <= i < |q.joins| ensures FromOwn(q.joins[i], obj.name) {
      assert Aliases(q)[0] == obj.name && Aliases(q)[i + 1] == q.joins[i].alias;
    }
  }

  lemma OwnSelected(e: Engine, k: Compiler, useViews: bool, obj: ObjectDefinition, files: Files, views: Views)
    requires AllResolve(files, views, Assembled(k, useViews, obj)) && NoDup(Aliases(Assembled(k, useViews, obj)))
    ensures Own(Selected(e, files, views, Assembled(k, useViews, obj)), obj.name)
         == Passing(e, k, obj, RelatedRows(e, k, useViews, obj, files, views))
  {
    var q := Assembled(k, useViews, obj);
    assert Resolve(files, views, SourceOfAlias(q, 0)).Some?;
    assert forall i :: 0 <= i < |q.joins| ==> SourceOfAlias(q, i + 1) == q.joins[i].source;
    var rows := Resolve(files, views, q.from).value.rows;
    JoinsFromOwn(k, useViews, obj, files, views);
    assert Own(FromRows(obj.name, rows), obj.name) == rows;
    OwnJoinAll(e, files, views, FromRows(obj.name, rows), q.joins, obj.name);
    OwnWhere(e, k, obj, JoinAll(e, files, views, FromRows(obj.name, rows), q.joins));
  }

  /** An accepted query denotes the outputs for the related rows that the engine lets pass. */
  lemma QueryDenotesPassing(
      k: Compiler, useViews: bool, obj: ObjectDefinition, e: Engine, files: Files, views: Views)
    requires Accepted(files, views, Assembled(k, useViews, obj))
    ensures Denote(e, files, views, Assembled(k, useViews, obj))
         == Some(multiset(OutputRows(e, obj, Passing(e, k, obj, RelatedRows(e, k, useViews, obj, files, views)))))
  {
    var q := Assembled(k, useViews, obj);
    OwnSelected(e, k, useViews, obj, files, views);
    if obj.aggregates == [] {
      ProjectPlain(e, k, useViews, obj, Selected(e, files, views, q));
    } else {
      ProjectGroups(e, k, useViews, obj, Selected(e, files, views, q));
    }
  }

  // ----- what a filter declares -----

  /** The value a filter compares with: a number if its text is numeric, else the text. */
  function FilterValue(m: Comparison, k: Compiler, f: Filter): Value {
    if k.isNumeric(f.value) then Number(m.number(f.value)) else Text(f.value)
  }

  /** The declared comparison; NULL meets none, and neither does anything under an unknown operator. */
  predicate Meets(m: Comparison, op: string, v: Value, w: Value) {
    && v != Null
    && match op
       case "eq" => m.equal(v, w)
       case "neq" => !m.equal(v, w)
       case "gt" => m.less(w, v)
       case "gte" => !m.less(v, w)
       case "lt" => m.less(v, w)
       case "lte" => !m.less(w, v)
       case "like" => m.like(v, w)
       case _ => false
  }

  predicate RowMeets(m: Comparison, k: Compiler, obj: ObjectDefinition, row: Row) {
    forall i :: 0 <= i < |obj.filters| ==>
      var f := obj.filters[i]; Meets(m, f.op, Get(row, f.field), FilterValue(m, k, f))
  }

  /** The rows that meet every filter of the object. */
  function Meeting(m: Comparison, k: Compiler, obj: ObjectDefinition, rows: seq<Row>): (r: seq<Row>) {
    if rows == [] then []
    else (if RowMeets(m, k, obj, rows[0]) then [rows[0]] else []) + Meeting(m, k, obj, rows[1..])
  }

  lemma OperatorMeets(e: Engine, m: Comparison, op: string, v: Value, text: string, quoted: bool)
    requires ReadsAt(e, m, v, text, quoted) && SqlOperator(op) != ""
    ensures e.holds(v, SqlOperator(op), text, quoted) <==> Meets(m, op, v, Literal(m, text, quoted))
  {
  }

  lemma RowPassesIff(e: Engine, m: Comparison, k: Compiler, obj: ObjectDefinition, row: Row)
    requires ReadsOperators(e, m)
    requires forall i :: 0 <= i < |obj.filters| ==> SqlOperator(obj.filters[i].op) != ""
    ensures RowPasses(e, k, obj, row) <==> RowMeets(m, k, obj, row)
  {
    forall i | 0 <= i < |obj.filters|
      ensures var f := obj.filters[i];
        e.holds(Get(row, f.field), SqlOperator(f.op), f.value, !k.isNumeric(f.value))
        <==> Meets(m, f.op, Get(row, f.field), FilterValue(m, k, f))
    {
      var f := obj.filters[i];
      assert ReadsAt(e, m, Get(row, f.field), f.value, !k.isNumeric(f.value));
      OperatorMeets(e, m, f.op, Get(row, f.field), f.value, !k.isNumeric(f.value));
    }
  }

  lemma {:induction false} PassingIsMeeting(
      e: Engine, m: Comparison, k: Compiler, obj: ObjectDefinition, rows: seq<Row>)
    requires ReadsOperators(e, m)
    requires forall i :: 0 <= i < |obj.filters| ==> SqlOperator(obj.filters[i].op) != ""
    ensures Passing(e, k, obj, rows) == Meeting(m, k, obj, rows)
  {
    if rows != [] {
      RowPassesIff(e, m, k, obj, rows[0]);
      PassingIsMeeting(e, m, k, obj, rows[1..]);
    }
  }

  lemma ParsedOperators(k: Compiler, useViews: bool, obj: ObjectDefinition)
    requires Parses(Assembled(k, useViews, obj))
    ensures forall i :: 0 <= i < |obj.filters| ==> SqlOperator(obj.filters[i].op) != ""
  {
    var q := Assembled(k, useViews, obj);
    assert forall i :: 0 <= i < |obj.filters| ==> q.conditions[i] == FilterCondition(k, obj, obj.filters[i]);
  }

  /**
   * An accepted query, in either mode, denotes what the declaration says, on an engine that reads the SQL
   * operators as comparisons: the table's rows repeated by the relations, those that meet the declared
   * comparisons, one output per row or per group.
   */
  lemma QueryDenotesDeclaration(
      k: Compiler, useViews: bool, obj: ObjectDefinition, e: Engine, m: Comparison, files: Files, views: Views)
    requires Accepted(files, views, Assembled(k, useViews, obj)) && ReadsOperators(e, m)
    ensures Denote(e, files, views, Assembled(k, useViews, obj))
         == Some(multiset(OutputRows(e, obj, Meeting(m, k, obj, RelatedRows(e, k, useViews, obj, files, views)))))
  {
    QueryDenotesPassing(k, useViews, obj, e, files, views);
    ParsedOperators(k, useViews, obj);
    PassingIsMeeting(e, m, k, obj, RelatedRows(e, k, useViews, obj, files, views));
  }

  /** In an accepted query with aggregates any row of a group stands for its properties. */
  lemma GroupSharesProperties(k: Compiler, useViews: bool, obj: ObjectDefinition, e: Engine, r: Row, r': Row)
    requires obj.aggregates != [] && GroupsCovered(Assembled(k, useViews, obj))
    requires var fields := GroupFields(obj.properties, AggregatedFields(obj)); RowKey(r, fields) == RowKey(r', fields)
    ensures RowValues(e, obj, obj.properties, r) == RowValues(e, obj, obj.properties, r')
  {
    GroupsCoveredIff(k, useViews, obj);
    var fields := GroupFields(obj.properties, AggregatedFields(obj));
    GroupColumnsAreFields(obj, obj.properties, AggregatedFields(obj));
    forall p | p in obj.properties ensures Get(r, SourceField(p)) == Get(r', SourceField(p)) {
      var field := SourceField(p);
      assert Groupable(obj, field);
      GroupColumnsExact(obj, obj.properties, AggregatedFields(obj), field);
      var columns := GroupColumns(obj, obj.properties, AggregatedFields(obj));
      var i :| 0 <= i < |columns| && columns[i] == Column(obj.name, field);
      assert RowKey(r, fields)[i] == RowKey(r', fields)[i];
    }
    SameSourcesSameValues(e, obj, obj.properties, r, r');
  }

  lemma {:induction false} SameSourcesSameValues(
      e: Engine, obj: ObjectDefinition, props: seq<Property>, r: Row, r': Row)
    requires forall p :: p in props ==> Get(r, SourceField(p)) == Get(r', SourceField(p))
    ensures RowValues(e, obj, props, r) == RowValues(e, obj, props, r')
  {
    if props != [] {
      assert props[|props| - 1] in props;
      SameSourcesSameValues(e, obj, props[..|props| - 1], r, r');
    }
  }
}
