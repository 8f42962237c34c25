/**
 * When view mode and inline mode of the ontology compiler agree (internal/dsl/compiler.go).
 *
 * Both modes select, filter and group by the names of the file's columns.  A view shows its columns under
 * the names of the properties, so a mentioned column can be missing from the view, or be another one.
 */
module OntologyModes {
  import opened Std
  import opened SqlQuery
  import opened OntologyCompiler
  import opened OntologyMeaning

  /** On this data, if the inline query is accepted, view mode denotes the same bag. */
  ghost predicate AgreeOn(k: Compiler, name: string, e: Engine, files: Files, before: Views, views: Views) {
    Prepared(k, name, files, before, views) && Accepted(files, views, Compiled(k, false, name).value) ==>
      && Compiled(k, true, name).Ok?
      && Denote(e, files, views, Compiled(k, true, name).value) ==
        Denote(e, files, views, Compiled(k, false, name).value)
  }

  ghost predicate AlwaysAgree(k: Compiler, name: string) {
    forall e: Engine, files: Files, before: Views, views: Views :: AgreeOn(k, name, e, files, before, views)
  }

  /** There is data on which the views can be created and the inline query is accepted. */
  ghost predicate Usable(k: Compiler, name: string) {
    exists files: Files, before: Views, views: Views :: UsableOn(k, name, files, before, views)
  }

  ghost predicate UsableOn(k: Compiler, name: string, files: Files, before: Views, views: Views) {
    Prepared(k, name, files, before, views) && Accepted(files, views, Compiled(k, false, name).value)
  }

  // ----- data that tells columns apart -----

  const ZERO: Value := Number(0.0)
  const ONE: Value := Number(1.0)

  function Score(vs: seq<Value>): nat {
    if vs == [] then 0 else Score(vs[..|vs| - 1]) + if vs[|vs| - 1] == ONE then 2 else 1
  }

  /** A strict engine keeps rows of zeros only; a joining one matches a key of one with everything. */
  function Probe(strict: bool, joining: bool): Engine {
    Engine(
      (v: Value, w: Value) => v == ONE && (joining || w.Text?),
      (v: Value, op: string, value: string, quoted: bool) => !strict || v == ZERO,
      (f: string, vs: seq<Value>) => Number(Score(vs) as real))
  }

  function ProbeRow(names: set<string>, odd: set<string>): Row {
    map n | n in names :: if n in odd then ONE else ZERO
  }

  function ProbeFiles(names: set<string>, rows: seq<Row>): Files {
    (_: string) => Some(Table(names, rows))
  }

  /** Every path holds these rows. */
  ghost predicate HoldsRows(files: Files, rows: seq<Row>) {
    forall path :: files(path).Some? && files(path).value.rows == rows
  }

  ghost predicate WithoutText(rows: seq<Row>) {
    forall i, n: string :: 0 <= i < |rows| ==> !Get(rows[i], n).Text?
  }

  /** The names the query and the views need. */
  function Needed(q: Query, definitions: seq<ViewDefinition>): set<string> {
    (set c | c in Columns(q) :: c.name)
    + (set i, j | 0 <= i < |definitions| && 0 <= j < |definitions[i].columns| :: definitions[i].columns[j].source)
  }

  lemma {:induction false} ViewsHaveColumns(files: Files, definitions: seq<ViewDefinition>, before: Views)
    requires CreateViews(files, definitions, before).Some?
    ensures forall i :: 0 <= i < |definitions| ==> definitions[i].columns != []
  {
    if definitions != [] { ViewsHaveColumns(files, definitions[..|definitions| - 1], before); }
  }

  lemma {:induction false} ProbeViews(names: set<string>, rows: seq<Row>, definitions: seq<ViewDefinition>)
    requires forall i :: 0 <= i < |definitions| ==> definitions[i].columns != []
    requires forall i, j :: 0 <= i < |definitions| && 0 <= j < |definitions[i].columns| ==>
      definitions[i].columns[j].source in names
    ensures CreateViews(ProbeFiles(names, rows), definitions, map[]).Some?
  {
    if definitions != [] {
      var n := |definitions| - 1;
      ProbeViews(names, rows, definitions[..n]);
      assert ViewAccepted(ProbeFiles(names, rows), definitions[n]);
    }
  }

  // ----- where a mentioned column comes from -----

  ghost predicate IsSource(obj: ObjectDefinition, c: Column) {
    exists p :: p in obj.properties && c == Column(obj.name, SourceField(p))
  }

  ghost predicate IsAggregated(obj: ObjectDefinition, c: Column) {
    exists a :: a in obj.aggregates && c == Column(obj.name, a.field)
  }

  ghost predicate IsFiltered(obj: ObjectDefinition, c: Column) {
    exists f :: f in obj.filters && c == Column(obj.name, f.field)
  }

  ghost predicate IsGrouped(obj: ObjectDefinition, c: Column) {
    obj.aggregates != [] && c.alias == obj.name && Groupable(obj, c.name)
  }

  ghost predicate IsLeftKey(k: Compiler, obj: ObjectDefinition, c: Column) {
    exists i :: 0 <= i < |Relations(k, k.program, obj.name)| &&
      c == Column(obj.name, Relations(k, k.program, obj.name)[i].leftOn)
  }

  ghost predicate IsRightKey(k: Compiler, obj: ObjectDefinition, c: Column) {
    exists i :: 0 <= i < |Relations(k, k.program, obj.name)| &&
      var rel := Relations(k, k.program, obj.name)[i]; c == Column(rel.to, rel.rightOn)
  }

  lemma SelectOrigin(k: Compiler, useViews: bool, obj: ObjectDefinition, i: nat, c: Column)
    requires i < |Assembled(k, useViews, obj).select| && c in ExprColumns(Assembled(k, useViews, obj).select[i].expr)
    ensures IsSource(obj, c) || IsAggregated(obj, c)
  {
    var front := PropertySelect(obj, obj.properties);
    if i < |front| {
      SelectColumns(obj, obj.properties, i, c);
    } else {
      assert obj.aggregates[i - |front|] in obj.aggregates;
    }
  }

  lemma JoinOrigin(k: Compiler, useViews: bool, obj: ObjectDefinition, i: nat, c: Column)
    requires var joins := Assembled(k, useViews, obj).joins; i < |joins| && (c == joins[i].left || c == joins[i].right)
    ensures IsLeftKey(k, obj, c) || IsRightKey(k, obj, c)
  {
    RelationsHaveTargets(k, k.program, obj.name);
  }

  lemma GroupOrigin(k: Compiler, useViews: bool, obj: ObjectDefinition, c: Column)
    requires c in Assembled(k, useViews, obj).groupBy
    ensures IsGrouped(obj, c)
  {
    GroupColumnsDeclared(obj, obj.properties, AggregatedFields(obj), c);
    GroupByExact(k, useViews, obj, c.name);
  }

  lemma Origin(k: Compiler, useViews: bool, obj: ObjectDefinition, c: Column)
    requires c in Columns(Assembled(k, useViews, obj))
    ensures IsSource(obj, c) || IsAggregated(obj, c) || IsFiltered(obj, c) || IsGrouped(obj, c)
         || IsLeftKey(k, obj, c) || IsRightKey(k, obj, c)
  {
    var q := Assembled(k, useViews, obj);
    ColumnOrigin(q, c);
    if c in q.groupBy {
      GroupOrigin(k, useViews, obj, c);
    } else if i :| 0 <= i < |q.select| && c in ExprColumns(q.select[i].expr) {
      SelectOrigin(k, useViews, obj, i, c);
    } else if i :| 0 <= i < |q.joins| && (c == q.joins[i].left || c == q.joins[i].right) {
      JoinOrigin(k, useViews, obj, i, c);
    } else {
      var i :| 0 <= i < |q.conditions| && c == q.conditions[i].col;
      assert obj.filters[i] in obj.filters;
    }
  }

  lemma KnownAliases(k: Compiler, useViews: bool, obj: ObjectDefinition)
    ensures obj.name in Aliases(Assembled(k, useViews, obj))
    ensures forall i :: 0 <= i < |Relations(k, k.program, obj.name)| ==>
      Relations(k, k.program, obj.name)[i].to in Aliases(Assembled(k, useViews, obj))
  {
    var aliases, rels := Aliases(Assembled(k, useViews, obj)), Relations(k, k.program, obj.name);
    RelationsHaveTargets(k, k.program, obj.name);
    assert aliases[0] == obj.name;
    assert forall i :: 0 <= i < |rels| ==> aliases[i + 1] == rels[i].to;
  }

  /** Every mentioned column belongs to the object or to the target of a relation. */
  lemma MentionedAliases(k: Compiler, useViews: bool, obj: ObjectDefinition, c: Column)
    requires c in Columns(Assembled(k, useViews, obj))
    ensures c.alias in Aliases(Assembled(k, useViews, obj))
  {
    Origin(k, useViews, obj, c);
    KnownAliases(k, useViews, obj);
  }

  /** The inline query is accepted over any rows that have the needed columns. */
  lemma ProbeAccepted(k: Compiler, obj: ObjectDefinition, names: set<string>, rows: seq<Row>, views: Views)
    requires var q := Assembled(k, false, obj);
      WellFormed(q) && forall c :: c in Columns(q) ==> c.name in names
    ensures Accepted(ProbeFiles(names, rows), views, Assembled(k, false, obj))
  {
    var q, files := Assembled(k, false, obj), ProbeFiles(names, rows);
    RelationsHaveTargets(k, k.program, obj.name);
    assert forall i :: 0 <= i <= |q.joins| ==> SourceOfAlias(q, i).Parquet?;
    forall c | c in Columns(q) ensures Binds(files, views, q, c) {
      MentionedAliases(k, false, obj, c);
      var i :| 0 <= i < |Aliases(q)| && Aliases(q)[i] == c.alias;
      assert i <= |q.joins| && c.name in Resolve(files, views, SourceOfAlias(q, i)).value.columns;
    }
  }

  /** What the view of an object makes of a file's rows. */
  function ViewRows(obj: ObjectDefinition, rows: seq<Row>): seq<Row> {
    seq(|rows|, i requires 0 <= i < |rows| => ViewRow(ViewColumns(obj.properties), rows[i]))
  }

  lemma ViewRowsWithoutText(obj: ObjectDefinition, rows: seq<Row>)
    requires WithoutText(rows)
    ensures WithoutText(ViewRows(obj, rows))
  {
  }

  /** The probe data is accepted inline, and both modes read what they should. */
  lemma Stage(k: Compiler, name: string, rows: seq<Row>) returns (files: Files, views: Views)
    requires Usable(k, name)
    ensures HoldsRows(files, rows) && UsableOn(k, name, files, map[], views)
  {
    var f0: Files, b0: Views, v0: Views :| UsableOn(k, name, f0, b0, v0);
    var q, definitions := Compiled(k, false, name).value, CompiledViews(k, k.program).value;
    ViewsHaveColumns(f0, definitions, b0);
    var names := ProbeNames(k, name);
    files := ProbeFiles(names, rows);
    ProbeViews(names, rows, definitions);
    views := CreateViews(files, definitions, map[]).value;
    ProbeAccepted(k, FindObject(k.program, name).value, names, rows, views);
  }

  function ProbeNames(k: Compiler, name: string): set<string> {
    if Compiled(k, false, name).Ok? && CompiledViews(k, k.program).Ok?
    then Needed(Compiled(k, false, name).value, CompiledViews(k, k.program).value) else {}
  }

  // ----- the rows that both modes read -----

  lemma {:induction false} NoMatches(e: Engine, row: Row, link: Link)
    requires forall i :: 0 <= i < |link.rows| ==> !e.equal(Get(row, link.left), Get(link.rows[i], link.right))
    ensures MatchCount(e, row, link) == 0
    decreases |link.rows|
  {
    if link.rows != [] {
      var rest := link.(rows := link.rows[1..]);
      assert forall i :: 0 <= i < |rest.rows| ==> rest.rows[i] == link.rows[i + 1];
      NoMatches(e, row, rest);
    }
  }

  lemma {:induction false} SingleMultiplicity(e: Engine, row: Row, links: seq<Link>)
    requires forall l :: 0 <= l < |links| ==> MatchCount(e, row, links[l]) == 0
    ensures Multiplicity(e, row, links) == 1
  {
    if links != [] { SingleMultiplicity(e, row, links[..|links| - 1]); }
  }

  lemma {:induction false} ExpandUnmatched(e: Engine, links: seq<Link>, rows: seq<Row>)
    requires forall i, l :: 0 <= i < |rows| && 0 <= l < |links| ==> MatchCount(e, rows[i], links[l]) == 0
    ensures Expand(e, links, rows) == rows
  {
    if rows != [] {
      SingleMultiplicity(e, rows[0], links);
      assert Repeat(rows[0], 1) == [rows[0]] + Repeat(rows[0], 0);
      forall i, l | 0 <= i < |rows[1..]| && 0 <= l < |links| ensures MatchCount(e, rows[1..][i], links[l]) == 0 {
        assert rows[1..][i] == rows[i + 1];
      }
      ExpandUnmatched(e, links, rows[1..]);
    }
  }

  lemma CompiledIsAssembled(k: Compiler, useViews: bool, name: string)
    requires Compiled(k, useViews, name).Ok?
    ensures var obj := FindObject(k.program, name);
      obj.Some? && obj.value.name == name && Compiled(k, useViews, name).value == Assembled(k, useViews, obj.value)
  {
  }

  /** What a mode reads behind an alias: the file's rows, or what the view makes of them. */
  lemma AliasRows(k: Compiler, name: string, useViews: bool, rows: seq<Row>, files: Files, views: Views, i: nat)
    requires UsableOn(k, name, files, map[], views) && HoldsRows(files, rows)
    requires i <= |Compiled(k, false, name).value.joins|
    ensures var target := FindObject(k.program, Aliases(Compiled(k, false, name).value)[i]);
      && target.Some?
      && RowsAt(files, views, ReadFrom(k, useViews, target.value))
         == if useViews then ViewRows(target.value, rows) else rows
  {
    AliasTables(k, name, files, map[], views, i);
    AliasObjects(k, false, name, i);
    AliasObjects(k, true, name, i);
    var q, p := Compiled(k, false, name).value, Compiled(k, true, name).value;
    SameColumns(q, p);
    var target := FindObject(k.program, Aliases(q)[i]).value;
    assert ViewTable(files, ViewOf(k, target)).rows == ViewRows(target, rows);
  }

  lemma OwnTable(k: Compiler, name: string, useViews: bool, rows: seq<Row>, files: Files, views: Views)
    requires UsableOn(k, name, files, map[], views) && HoldsRows(files, rows)
    ensures var obj := FindObject(k.program, name);
      && obj.Some?
      && RowsAt(files, views, ReadFrom(k, useViews, obj.value)) == if useViews then ViewRows(obj.value, rows) else rows
  {
    AliasRows(k, name, useViews, rows, files, views, 0);
    CompiledIsAssembled(k, false, name);
    assert Aliases(Compiled(k, false, name).value)[0] == name;
  }

  lemma TargetAlias(k: Compiler, obj: ObjectDefinition, l: nat)
    requires l < |Relations(k, k.program, obj.name)|
    ensures l < |Assembled(k, false, obj).joins|
    ensures Aliases(Assembled(k, false, obj))[l + 1] == Relations(k, k.program, obj.name)[l].to
  {
    RelationsHaveTargets(k, k.program, obj.name);
  }

  lemma LinkAt(k: Compiler, useViews: bool, obj: ObjectDefinition, files: Files, views: Views, l: nat)
    requires l < |Relations(k, k.program, obj.name)|
    ensures var links, rel := DeclaredLinks(k, useViews, obj, files, views), Relations(k, k.program, obj.name)[l];
      && l < |links| && links[l].left == rel.leftOn && FindObject(k.program, rel.to).Some?
      && links[l].rows == RowsAt(files, views, ReadFrom(k, useViews, FindObject(k.program, rel.to).value))
  {
    RelationsHaveTargets(k, k.program, obj.name);
  }

  /** The tables behind the relations hold the file's rows, or what their views make of them. */
  lemma LinkRows(k: Compiler, name: string, useViews: bool, rows: seq<Row>, files: Files, views: Views, l: nat)
    requires UsableOn(k, name, files, map[], views) && HoldsRows(files, rows) && l < |Relations(k, k.program, name)|
    ensures var obj, target := FindObject(k.program, name), FindObject(k.program, Relations(k, k.program, name)[l].to);
      && obj.Some? && target.Some? && l < |DeclaredLinks(k, useViews, obj.value, files, views)|
      && DeclaredLinks(k, useViews, obj.value, files, views)[l].rows
         == if useViews then ViewRows(target.value, rows) else rows
  {
    CompiledIsAssembled(k, false, name);
    var obj := FindObject(k.program, name).value;
    TargetAlias(k, obj, l);
    AliasRows(k, name, useViews, rows, files, views, l + 1);
    LinkAt(k, useViews, obj, files, views, l);
  }

  lemma LinksWithoutText(k: Compiler, name: string, useViews: bool, rows: seq<Row>, files: Files, views: Views, l: nat)
    requires UsableOn(k, name, files, map[], views) && HoldsRows(files, rows)
    requires WithoutText(rows) && l < |Relations(k, k.program, name)|
    ensures var obj := FindObject(k.program, name);
      && obj.Some? && l < |DeclaredLinks(k, useViews, obj.value, files, views)|
      && WithoutText(DeclaredLinks(k, useViews, obj.value, files, views)[l].rows)
  {
    LinkRows(k, name, useViews, rows, files, views, l);
    ViewRowsWithoutText(FindObject(k.program, Relations(k, k.program, name)[l].to).value, rows);
  }

  /** Without text no key matches, so each mode reads the rows of its table once. */
  lemma UnmatchedRows(
      k: Compiler, name: string, strict: bool, useViews: bool, rows: seq<Row>, files: Files, views: Views)
    requires UsableOn(k, name, files, map[], views) && WithoutText(rows)
    requires HoldsRows(files, rows)
    ensures var obj := FindObject(k.program, name).value;
      RelatedRows(Probe(strict, false), k, useViews, obj, files, views)
      == if useViews then ViewRows(obj, rows) else rows
  {
    var obj, e := FindObject(k.program, name).value, Probe(strict, false);
    OwnTable(k, name, useViews, rows, files, views);
    var own := RowsAt(files, views, ReadFrom(k, useViews, obj));
    var links := DeclaredLinks(k, useViews, obj, files, views);
    forall i, l | 0 <= i < |own| && 0 <= l < |links| ensures MatchCount(e, own[i], links[l]) == 0 {
      LinksWithoutText(k, name, useViews, rows, files, views, l);
      NoMatches(e, own[i], links[l]);
    }
    ExpandUnmatched(e, links, own);
  }

  /** What a mode answers for rows that the filters keep or drop. */
  ghost function Answer(e: Engine, k: Compiler, obj: ObjectDefinition, rows: seq<Row>): multiset<seq<Value>> {
    multiset(OutputRows(e, obj, Passing(e, k, obj, rows)))
  }

  /** If the answers for the file's rows and for the view's rows differ, the modes do not always agree. */
  lemma DifferentAnswers(k: Compiler, name: string, strict: bool, rows: seq<Row>)
    requires Usable(k, name) && WithoutText(rows)
    requires var obj, e := FindObject(k.program, name), Probe(strict, false);
      obj.Some? ==> Answer(e, k, obj.value, rows) != Answer(e, k, obj.value, ViewRows(obj.value, rows))
    ensures !AlwaysAgree(k, name)
  {
    var files, views := Stage(k, name, rows);
    var obj, e := FindObject(k.program, name).value, Probe(strict, false);
    UnmatchedRows(k, name, strict, false, rows, files, views);
    UnmatchedRows(k, name, strict, true, rows, files, views);
    DisagreeOn(k, name, e, files, views);
  }

  ghost function ModeAnswer(e: Engine, k: Compiler, useViews: bool, obj: ObjectDefinition, files: Files, views: Views)
    : multiset<seq<Value>>
  {
    Answer(e, k, obj, RelatedRows(e, k, useViews, obj, files, views))
  }

  lemma InlineAnswers(k: Compiler, name: string, e: Engine, files: Files, views: Views)
    requires UsableOn(k, name, files, map[], views)
    ensures var obj := FindObject(k.program, name);
      && obj.Some?
      && Denote(e, files, views, Compiled(k, false, name).value) ==
        Some(ModeAnswer(e, k, false, obj.value, files, views))
  {
    CompiledIsAssembled(k, false, name);
    QueryDenotesPassing(k, false, FindObject(k.program, name).value, e, files, views);
  }

  lemma ViewAnswers(k: Compiler, name: string, e: Engine, files: Files, views: Views)
    requires UsableOn(k, name, files, map[], views)
    ensures Compiled(k, true, name).Ok?
    ensures var obj := FindObject(k.program, name);
      && obj.Some?
      && var bag := Denote(e, files, views, Compiled(k, true, name).value);
      bag == None || bag == Some(ModeAnswer(e, k, true, obj.value, files, views))
  {
    ModesDifferInSources(k, name);
    var obj := FindObject(k.program, name).value;
    if Accepted(files, views, Assembled(k, true, obj)) { QueryDenotesPassing(k, true, obj, e, files, views); }
  }

  lemma DisagreeOn(k: Compiler, name: string, e: Engine, files: Files, views: Views)
    requires UsableOn(k, name, files, map[], views)
    requires var obj := FindObject(k.program, name);
      obj.Some? && ModeAnswer(e, k, false, obj.value, files, views) != ModeAnswer(e, k, true, obj.value, files, views)
    ensures !AlwaysAgree(k, name)
  {
    InlineAnswers(k, name, e, files, views);
    ViewAnswers(k, name, e, files, views);
    assert !AgreeOn(k, name, e, files, map[], views);
  }

  // ----- comparing the answers -----

  /** Rows that are all alike come out as one group. */
  lemma {:induction false} OneKey(rows: seq<Row>, row: Row, fields: seq<string>)
    requires rows != [] && forall i :: 0 <= i < |rows| ==> rows[i] == row
    ensures RowKeys(rows, fields) == [RowKey(row, fields)]
  {
    var n := |rows| - 1;
    if n > 0 { OneKey(rows[..n], row, fields); }
  }

  lemma {:induction false} AllWithKey(rows: seq<Row>, row: Row, fields: seq<string>)
    requires forall i :: 0 <= i < |rows| ==> rows[i] == row
    ensures RowsWith(rows, fields, RowKey(row, fields)) == rows
  {
    if rows != [] {
      assert forall i :: 0 <= i < |rows[1..]| ==> rows[1..][i] == rows[i + 1];
      AllWithKey(rows[1..], row, fields);
      assert rows == [rows[0]] + rows[1..];
    }
  }

  /** Rows that are all alike, of an object with aggregates. */
  lemma OutputOfAlike(e: Engine, obj: ObjectDefinition, rows: seq<Row>, row: Row)
    requires obj.aggregates != [] && rows != [] && forall i :: 0 <= i < |rows| ==> rows[i] == row
    ensures OutputRows(e, obj, rows) == [GroupOutput(e, obj, rows)]
  {
    var fields := GroupFields(obj.properties, AggregatedFields(obj));
    OneKey(rows, row, fields);
    AllWithKey(rows, row, fields);
  }

  /** A single row is its own group. */
  lemma OutputOfOne(e: Engine, obj: ObjectDefinition, row: Row)
    ensures OutputRows(e, obj, [row]) == [RowValues(e, obj, obj.properties, row) + AggregateValues(e, obj, [row])]
  {
    var values := RowValues(e, obj, obj.properties, row);
    if obj.aggregates != [] {
      OutputOfAlike(e, obj, [row], row);
    } else {
      assert AggregateValues(e, obj, [row]) == [] && values + [] == values;
    }
  }

  lemma {:induction false} AllPass(e: Engine, k: Compiler, obj: ObjectDefinition, rows: seq<Row>)
    requires forall i :: 0 <= i < |rows| ==> RowPasses(e, k, obj, rows[i])
    ensures Passing(e, k, obj, rows) == rows
  {
    if rows != [] {
      assert forall i :: 0 <= i < |rows[1..]| ==> rows[1..][i] == rows[i + 1];
      AllPass(e, k, obj, rows[1..]);
      assert rows == [rows[0]] + rows[1..];
    }
  }

  lemma {:induction false} RowValuesLength(e: Engine, obj: ObjectDefinition, props: seq<Property>, r: Row, r': Row)
    ensures |RowValues(e, obj, props, r)| == |RowValues(e, obj, props, r')|
  {
    if props != [] { RowValuesLength(e, obj, props[..|props| - 1], r, r'); }
  }

  lemma Unglue(a: seq<Value>, b: seq<Value>, a': seq<Value>, b': seq<Value>)
    requires |a| == |a'| && a + b == a' + b'
    ensures a == a' && b == b'
  {
    assert a == (a + b)[..|a|] && a' == (a' + b')[..|a|];
    assert b == (a + b)[|a|..] && b' == (a' + b')[|a|..];
  }

  lemma {:induction false} RowValuesTell(
      e: Engine, obj: ObjectDefinition, props: seq<Property>, p: Property, r: Row, r': Row)
    requires p in props && PropertyValue(e, p, r) != PropertyValue(e, p, r')
    ensures RowValues(e, obj, props, r) != RowValues(e, obj, props, r')
  {
    var front, last := props[..|props| - 1], props[|props| - 1];
    RowValuesLength(e, obj, front, r, r');
    if RowValues(e, obj, props, r) == RowValues(e, obj, props, r') {
      Unglue(RowValues(e, obj, front, r), PropertyOutput(e, obj, last, r),
             RowValues(e, obj, front, r'), PropertyOutput(e, obj, last, r'));
      if p == last {
        SamePropertyOutput(e, obj, last, r, r');
      } else {
        RowValuesTell(e, obj, front, p, r, r');
      }
    }
  }

  lemma SamePropertyOutput(e: Engine, obj: ObjectDefinition, p: Property, r: Row, r': Row)
    ensures PropertyOutput(e, obj, p, r) == PropertyOutput(e, obj, p, r') ==>
      PropertyValue(e, p, r) == PropertyValue(e, p, r')
  {
    var o, o' := PropertyOutput(e, obj, p, r), PropertyOutput(e, obj, p, r');
    assert o[|o| - 1] == PropertyValue(e, p, r) && o'[|o'| - 1] == PropertyValue(e, p, r');
  }

  // ----- the odd row -----

  function Seen(obj: ObjectDefinition, row: Row): Row {
    ViewRow(ViewColumns(obj.properties), row)
  }

  /** The object's view shows that column of the file under its own name. */
  predicate Shown(obj: ObjectDefinition, field: string) {
    ViewSource(ViewColumns(obj.properties), field) == Some(field)
  }

  ghost predicate SourcesShown(obj: ObjectDefinition) {
    forall p :: p in obj.properties ==> Shown(obj, SourceField(p))
  }

  function OwnNames(obj: ObjectDefinition, field: string): set<string> {
    (set p | p in obj.properties :: SourceField(p)) + {field}
  }

  /** Nothing but the column in question holds a one. */
  function OddRow(obj: ObjectDefinition, field: string): Row {
    ProbeRow(OwnNames(obj, field), {field})
  }

  function ZeroRow(obj: ObjectDefinition, field: string): Row {
    ProbeRow(OwnNames(obj, field), {})
  }

  lemma ProbeRowsWithoutText(obj: ObjectDefinition, field: string)
    ensures WithoutText([OddRow(obj, field)]) && WithoutText([OddRow(obj, field), ZeroRow(obj, field)])
    ensures Get(OddRow(obj, field), field) == ONE && Get(ZeroRow(obj, field), field) == ZERO
  {
  }

  lemma {:induction false} ViewSourceIsProperty(props: seq<Property>, name: string)
    requires ViewSource(ViewColumns(props), name).Some?
    ensures exists p :: p in props && p.name == name && SourceField(p) == ViewSource(ViewColumns(props), name).value
  {
    if props[0].name == name {
      assert props[0] in props;
    } else {
      assert ViewColumns(props)[1..] == ViewColumns(props[1..]);
      ViewSourceIsProperty(props[1..], name);
      var p :| p in props[1..] && p.name == name && SourceField(p) == ViewSource(ViewColumns(props[1..]), name).value;
      assert p in props;
    }
  }

  /** The value of a column in the view of a probe row: the row's value in the source column. */
  lemma ViewShows(obj: ObjectDefinition, field: string, odd: set<string>, n: string)
    ensures var source := ViewSource(ViewColumns(obj.properties), n);
      Get(Seen(obj, ProbeRow(OwnNames(obj, field), odd)), n)
      == if source.None? then Null else if source.value in odd then ONE else ZERO
  {
    if ViewSource(ViewColumns(obj.properties), n).Some? {
      ViewSourceIsProperty(obj.properties, n);
    }
  }

  /** When the sources are shown, no view column shows a column that is not: the view hides the odd one. */
  lemma OddIsHidden(obj: ObjectDefinition, field: string, n: string)
    requires SourcesShown(obj) && !Shown(obj, field)
    ensures var v := Get(Seen(obj, OddRow(obj, field)), n);
      v == if ViewSource(ViewColumns(obj.properties), n).Some? then ZERO else Null
  {
    if ViewSource(ViewColumns(obj.properties), n).Some? { ViewSourceIsProperty(obj.properties, n); }
    ViewShows(obj, field, {field}, n);
  }

  // ----- a mentioned own column that is not passed through tells the modes apart -----

  /** The object a usable name stands for. */
  ghost predicate Names(k: Compiler, name: string, obj: ObjectDefinition) {
    Usable(k, name) && FindObject(k.program, name) == Some(obj)
  }

  lemma {:induction false} CaseTells(maps: seq<ValueMap>, v: Value)
    requires v != ONE
    ensures CaseOf(Probe(false, false), maps, v) == Null
    ensures maps != [] ==> CaseOf(Probe(false, false), maps, ONE) == Text(maps[0].to)
  {
    if maps != [] { CaseTells(maps[1..], v); }
  }

  lemma OneRowAnswer(k: Compiler, obj: ObjectDefinition, row: Row)
    ensures var e := Probe(false, false);
      Answer(e, k, obj, [row]) == multiset{RowValues(e, obj, obj.properties, row) + AggregateValues(e, obj, [row])}
  {
    AllPass(Probe(false, false), k, obj, [row]);
    OutputOfOne(Probe(false, false), obj, row);
  }

  lemma OneRowAnswersDiffer(k: Compiler, obj: ObjectDefinition, row: Row, seen: Row)
    requires var e := Probe(false, false);
      || RowValues(e, obj, obj.properties, row) != RowValues(e, obj, obj.properties, seen)
      || AggregateValues(e, obj, [row]) != AggregateValues(e, obj, [seen])
    ensures Answer(Probe(false, false), k, obj, [row]) != Answer(Probe(false, false), k, obj, [seen])
  {
    var e := Probe(false, false);
    OneRowAnswer(k, obj, row);
    OneRowAnswer(k, obj, seen);
    RowValuesLength(e, obj, obj.properties, row, seen);
    var x := RowValues(e, obj, obj.properties, row) + AggregateValues(e, obj, [row]);
    var y := RowValues(e, obj, obj.properties, seen) + AggregateValues(e, obj, [seen]);
    if x == y {
      Unglue(RowValues(e, obj, obj.properties, row), AggregateValues(e, obj, [row]),
             RowValues(e, obj, obj.properties, seen), AggregateValues(e, obj, [seen]));
    }
    assert x in multiset{x} && x !in multiset{y};
  }

  /** One row whose output differs from that of its view. */
  lemma OneRowTells(k: Compiler, name: string, obj: ObjectDefinition, row: Row)
    requires Names(k, name, obj) && WithoutText([row])
    requires var e := Probe(false, false);
      || RowValues(e, obj, obj.properties, row) != RowValues(e, obj, obj.properties, Seen(obj, row))
      || AggregateValues(e, obj, [row]) != AggregateValues(e, obj, [Seen(obj, row)])
    ensures !AlwaysAgree(k, name)
  {
    OneRowAnswersDiffer(k, obj, row, Seen(obj, row));
    OneRowDiffers(k, name, obj, false, row);
  }

  lemma SourceValuesTell(obj: ObjectDefinition, p: Property)
    requires p in obj.properties && !Shown(obj, SourceField(p))
    ensures var e, row := Probe(false, false), OddRow(obj, SourceField(p));
      RowValues(e, obj, obj.properties, row) != RowValues(e, obj, obj.properties, Seen(obj, row))
  {
    var field, e := SourceField(p), Probe(false, false);
    var row := OddRow(obj, field);
    ViewShows(obj, field, {field}, field);
    ProbeRowsWithoutText(obj, field);
    CaseTells(p.maps, Get(Seen(obj, row), field));
    RowValuesTell(e, obj, obj.properties, p, row, Seen(obj, row));
  }

  /** A source column that its view does not show as itself. */
  lemma SourceTells(k: Compiler, name: string, obj: ObjectDefinition, p: Property)
    requires Names(k, name, obj) && p in obj.properties && !Shown(obj, SourceField(p))
    ensures !AlwaysAgree(k, name)
  {
    SourceValuesTell(obj, p);
    ProbeRowsWithoutText(obj, SourceField(p));
    OneRowTells(k, name, obj, OddRow(obj, SourceField(p)));
  }

  lemma {:induction false} ScoreCounts(vs: seq<Value>)
    ensures |vs| <= Score(vs)
    ensures (forall i :: 0 <= i < |vs| ==> vs[i] != ONE) ==> Score(vs) == |vs|
    ensures |vs| == 1 && vs[0] == ONE ==> Score(vs) == 2
  {
    if vs != [] { ScoreCounts(vs[..|vs| - 1]); }
  }

  lemma AggregateValuesTell(obj: ObjectDefinition, i: nat)
    requires SourcesShown(obj) && i < |obj.aggregates| && !Shown(obj, obj.aggregates[i].field)
    ensures var e, row := Probe(false, false), OddRow(obj, obj.aggregates[i].field);
      AggregateValues(e, obj, [row]) != AggregateValues(e, obj, [Seen(obj, row)])
  {
    var field, e := obj.aggregates[i].field, Probe(false, false);
    var row := OddRow(obj, field);
    ProbeRowsWithoutText(obj, field);
    OddIsHidden(obj, field, field);
    ScoreCounts(FieldValues([row], field));
    ScoreCounts(FieldValues([Seen(obj, row)], field));
    assert AggregateValues(e, obj, [row])[i] != AggregateValues(e, obj, [Seen(obj, row)])[i];
  }

  /** An aggregated column. */
  lemma AggregateTells(k: Compiler, name: string, obj: ObjectDefinition, i: nat)
    requires Names(k, name, obj) && SourcesShown(obj) && i < |obj.aggregates| && !Shown(obj, obj.aggregates[i].field)
    ensures !AlwaysAgree(k, name)
  {
    AggregateValuesTell(obj, i);
    ProbeRowsWithoutText(obj, obj.aggregates[i].field);
    OneRowTells(k, name, obj, OddRow(obj, obj.aggregates[i].field));
  }

  lemma HiddenOn(k: Compiler, name: string, obj: ObjectDefinition, c: Column, files: Files, before: Views, views: Views)
    requires UsableOn(k, name, files, before, views) && FindObject(k.program, name) == Some(obj)
    requires c in Columns(Assembled(k, false, obj)) && c.alias == obj.name
    requires ViewSource(ViewColumns(obj.properties), c.name).None?
    ensures !AgreeOn(k, name, Probe(false, false), files, before, views)
  {
    CompiledIsAssembled(k, false, name);
    HiddenColumnRejected(k, name, Probe(false, false), files, before, views, c);
  }

  /** A mentioned own column that its view does not have. */
  lemma HiddenTells(k: Compiler, name: string, obj: ObjectDefinition, c: Column)
    requires Names(k, name, obj) && c in Columns(Assembled(k, false, obj)) && c.alias == obj.name
    requires ViewSource(ViewColumns(obj.properties), c.name).None?
    ensures !AlwaysAgree(k, name)
  {
    var files: Files, before: Views, views: Views :| UsableOn(k, name, files, before, views);
    HiddenOn(k, name, obj, c, files, before, views);
  }

  lemma NoRowNoOutput(e: Engine, obj: ObjectDefinition, row: Row)
    requires e == Probe(true, false)
    ensures multiset(OutputRows(e, obj, [])) != multiset(OutputRows(e, obj, [row]))
  {
    OutputOfOne(e, obj, row);
    var none, one := OutputRows(e, obj, []), OutputRows(e, obj, [row]);
    if obj.aggregates != [] && GroupFields(obj.properties, AggregatedFields(obj)) == [] {
      var field := obj.aggregates[0].field;
      ScoreCounts(FieldValues([row], field));
      assert FieldValues([], field) == [];
      assert AggregateValues(e, obj, [])[0] == Number(0.0) != AggregateValues(e, obj, [row])[0];
      EmptyGroupTells(e, obj, row);
      assert none[0] in multiset(none) && none[0] !in multiset(one);
    } else {
      SizesTell(none, one);
    }
  }

  lemma EmptyGroupTells(e: Engine, obj: ObjectDefinition, row: Row)
    requires obj.aggregates != [] && AggregateValues(e, obj, [])[0] != AggregateValues(e, obj, [row])[0]
    ensures GroupOutput(e, obj, []) != RowValues(e, obj, obj.properties, row) + AggregateValues(e, obj, [row])
  {
    var a, b, v := AggregateValues(e, obj, []), AggregateValues(e, obj, [row]), RowValues(e, obj, obj.properties, row);
    assert |a| == |b|;
    if |v| == 0 { assert v + b == b; } else { assert |v + b| > |a|; }
  }

  lemma OddRowDropped(k: Compiler, obj: ObjectDefinition, row: Row, i: nat)
    requires i < |obj.filters| && Get(row, obj.filters[i].field) == ONE
    ensures Passing(Probe(true, false), k, obj, [row]) == []
  {
    assert !RowPasses(Probe(true, false), k, obj, row);
  }

  lemma ZerosKept(k: Compiler, obj: ObjectDefinition, row: Row)
    requires forall i :: 0 <= i < |obj.filters| ==> Get(row, obj.filters[i].field) == ZERO
    ensures Passing(Probe(true, false), k, obj, [row]) == [row]
  {
    AllPass(Probe(true, false), k, obj, [row]);
  }

  /** A strict filter drops the odd row and keeps its view. */
  lemma StrictFilter(k: Compiler, obj: ObjectDefinition, i: nat)
    requires SourcesShown(obj) && i < |obj.filters| && !Shown(obj, obj.filters[i].field)
    requires forall f :: f in obj.filters ==> ViewSource(ViewColumns(obj.properties), f.field).Some?
    ensures var e, row := Probe(true, false), OddRow(obj, obj.filters[i].field);
      Passing(e, k, obj, [row]) == [] && Passing(e, k, obj, [Seen(obj, row)]) == [Seen(obj, row)]
  {
    var field := obj.filters[i].field;
    var row := OddRow(obj, field);
    ProbeRowsWithoutText(obj, field);
    OddRowDropped(k, obj, row, i);
    forall j | 0 <= j < |obj.filters| ensures Get(Seen(obj, row), obj.filters[j].field) == ZERO {
      assert obj.filters[j] in obj.filters;
      OddIsHidden(obj, field, obj.filters[j].field);
    }
    ZerosKept(k, obj, Seen(obj, row));
  }

  lemma FilterAnswers(k: Compiler, obj: ObjectDefinition, i: nat)
    requires SourcesShown(obj) && i < |obj.filters| && !Shown(obj, obj.filters[i].field)
    requires forall f :: f in obj.filters ==> ViewSource(ViewColumns(obj.properties), f.field).Some?
    ensures var e, row := Probe(true, false), OddRow(obj, obj.filters[i].field);
      Answer(e, k, obj, [row]) != Answer(e, k, obj, [Seen(obj, row)])
  {
    StrictFilter(k, obj, i);
    NoRowNoOutput(Probe(true, false), obj, Seen(obj, OddRow(obj, obj.filters[i].field)));
  }

  lemma ViewOfOne(obj: ObjectDefinition, row: Row)
    ensures ViewRows(obj, [row]) == [Seen(obj, row)]
  {
  }

  /** A filtered column. */
  lemma FilterTells(k: Compiler, name: string, obj: ObjectDefinition, i: nat)
    requires Names(k, name, obj) && SourcesShown(obj) && i < |obj.filters| && !Shown(obj, obj.filters[i].field)
    requires forall f :: f in obj.filters ==> ViewSource(ViewColumns(obj.properties), f.field).Some?
    ensures !AlwaysAgree(k, name)
  {
    var row := OddRow(obj, obj.filters[i].field);
    ProbeRowsWithoutText(obj, obj.filters[i].field);
    FilterAnswers(k, obj, i);
    OneRowDiffers(k, name, obj, true, row);
  }

  lemma OneRowDiffers(k: Compiler, name: string, obj: ObjectDefinition, strict: bool, row: Row)
    requires Names(k, name, obj) && WithoutText([row])
    requires Answer(Probe(strict, false), k, obj, [row]) != Answer(Probe(strict, false), k, obj, [Seen(obj, row)])
    ensures !AlwaysAgree(k, name)
  {
    ViewOfOne(obj, row);
    DifferentAnswers(k, name, strict, [row]);
  }

  lemma SameSourcesSeenAlike(obj: ObjectDefinition, r: Row, s: Row)
    requires forall p :: p in obj.properties ==> Get(r, SourceField(p)) == Get(s, SourceField(p))
    ensures Seen(obj, r) == Seen(obj, s)
  {
    var columns := ViewColumns(obj.properties);
    forall n | n in ViewNames(columns)
      ensures Get(r, ViewSource(columns, n).value) == Get(s, ViewSource(columns, n).value)
    {
      ViewSourceIsProperty(obj.properties, n);
    }
  }

  /** The view shows the odd row and the row of zeros alike. */
  lemma SeenAlike(obj: ObjectDefinition, field: string)
    requires SourcesShown(obj) && !Shown(obj, field)
    ensures Seen(obj, OddRow(obj, field)) == Seen(obj, ZeroRow(obj, field))
  {
    forall p | p in obj.properties
      ensures Get(OddRow(obj, field), SourceField(p)) == Get(ZeroRow(obj, field), SourceField(p))
    {
      assert Shown(obj, SourceField(p));
    }
    SameSourcesSeenAlike(obj, OddRow(obj, field), ZeroRow(obj, field));
  }

  lemma TwoKeys(r: Row, s: Row, fields: seq<string>, i: nat)
    requires i < |fields| && Get(r, fields[i]) != Get(s, fields[i])
    ensures |RowKeys([r, s], fields)| == 2
  {
    assert [r, s][..1] == [r] && [r][..0] == [];
    assert RowKeys([r], fields) == [RowKey(r, fields)];
    assert RowKey(r, fields)[i] != RowKey(s, fields)[i];
  }

  lemma TwoGroups(e: Engine, obj: ObjectDefinition, field: string, r: Row, s: Row)
    requires obj.aggregates != [] && Groupable(obj, field) && Get(r, field) != Get(s, field)
    ensures |OutputRows(e, obj, [r, s])| == 2
  {
    var fields := GroupFields(obj.properties, AggregatedFields(obj));
    GroupColumnsAreFields(obj, obj.properties, AggregatedFields(obj));
    GroupColumnsExact(obj, obj.properties, AggregatedFields(obj), field);
    var columns := GroupColumns(obj, obj.properties, AggregatedFields(obj));
    var i :| 0 <= i < |columns| && columns[i] == Column(obj.name, field);
    TwoKeys(r, s, fields, i);
  }

  lemma TwoRowsAnswer(k: Compiler, obj: ObjectDefinition, r: Row, s: Row)
    requires obj.aggregates != [] && Seen(obj, r) == Seen(obj, s)
    requires |OutputRows(Probe(false, false), obj, [r, s])| == 2
    ensures var e := Probe(false, false); Answer(e, k, obj, [r, s]) != Answer(e, k, obj, ViewRows(obj, [r, s]))
  {
    var e, seen := Probe(false, false), Seen(obj, r);
    assert ViewRows(obj, [r, s]) == [seen, seen];
    AllPass(e, k, obj, [r, s]);
    AllPass(e, k, obj, [seen, seen]);
    OutputOfAlike(e, obj, [seen, seen], seen);
    SizesTell(OutputRows(e, obj, [r, s]), OutputRows(e, obj, [seen, seen]));
  }

  /** A grouped column: two groups inline, one in the view. */
  lemma GroupTells(k: Compiler, name: string, obj: ObjectDefinition, field: string)
    requires Names(k, name, obj) && SourcesShown(obj) && !Shown(obj, field)
    requires obj.aggregates != [] && Groupable(obj, field)
    ensures !AlwaysAgree(k, name)
  {
    ProbeRowsWithoutText(obj, field);
    TwoGroups(Probe(false, false), obj, field, OddRow(obj, field), ZeroRow(obj, field));
    SeenAlike(obj, field);
    TwoRowsAnswer(k, obj, OddRow(obj, field), ZeroRow(obj, field));
    DifferentAnswers(k, name, false, [OddRow(obj, field), ZeroRow(obj, field)]);
  }

  lemma SizesTell(a: seq<seq<Value>>, b: seq<seq<Value>>)
    requires |a| != |b|
    ensures multiset(a) != multiset(b)
  {
    assert |multiset(a)| == |a| && |multiset(b)| == |b|;
  }

  // ----- the key of a relation -----

  lemma {:induction false} MatchesEverything(row: Row, link: Link)
    requires Get(row, link.left) == ONE
    ensures MatchCount(Probe(false, true), row, link) == |link.rows|
    decreases |link.rows|
  {
    if link.rows != [] { MatchesEverything(row, link.(rows := link.rows[1..])); }
  }

  lemma AtLeast(m: nat, t: nat)
    requires m >= 1 && t >= 1
    ensures m * t >= m && m * t >= t
  {
  }

  lemma {:induction false} MultiplicityAtLeast(e: Engine, row: Row, links: seq<Link>, i: nat)
    requires i < |links|
    ensures Multiplicity(e, row, links) >= Times(e, row, links[i]) >= 1
  {
    var n := |links| - 1;
    MultiplicityPositive(e, row, links[..n]);
    AtLeast(Multiplicity(e, row, links[..n]), Times(e, row, links[n]));
    if i < n { MultiplicityAtLeast(e, row, links[..n], i); }
  }

  lemma {:induction false} MultiplicityPositive(e: Engine, row: Row, links: seq<Link>)
    ensures Multiplicity(e, row, links) >= 1
  {
    if links != [] {
      var n := |links| - 1;
      MultiplicityPositive(e, row, links[..n]);
      AtLeast(Multiplicity(e, row, links[..n]), Times(e, row, links[n]));
    }
  }

  lemma {:induction false} RepeatAlike(row: Row, n: nat)
    ensures |Repeat(row, n)| == n && forall i :: 0 <= i < n ==> Repeat(row, n)[i] == row
  {
    if n > 0 { RepeatAlike(row, n - 1); }
  }

  lemma ExpandPair(e: Engine, links: seq<Link>, row: Row)
    ensures var rows := Expand(e, links, [row, row]);
      |rows| == 2 * Multiplicity(e, row, links) && forall i :: 0 <= i < |rows| ==> rows[i] == row
  {
    var m := Multiplicity(e, row, links);
    assert [row, row][1..] == [row] && [row][1..] == [];
    RepeatAlike(row, m);
    assert Expand(e, links, [row]) == Repeat(row, m) + Expand(e, links, []);
  }

  /** Inline, two rows with a key of one are repeated at least twice. */
  lemma KeyRepeats(k: Compiler, name: string, obj: ObjectDefinition, row: Row, files: Files, views: Views, i: nat)
    requires UsableOn(k, name, files, map[], views) && FindObject(k.program, name) == Some(obj)
    requires HoldsRows(files, [row, row])
    requires i < |Relations(k, k.program, name)| && Get(row, Relations(k, k.program, name)[i].leftOn) == ONE
    ensures var rows := RelatedRows(Probe(false, true), k, false, obj, files, views);
      |rows| >= 4 && forall j :: 0 <= j < |rows| ==> rows[j] == row
  {
    var e, links := Probe(false, true), DeclaredLinks(k, false, obj, files, views);
    OwnTable(k, name, false, [row, row], files, views);
    LinkRows(k, name, false, [row, row], files, views, i);
    LinkAt(k, false, obj, files, views, i);
    MatchesEverything(row, links[i]);
    MultiplicityAtLeast(e, row, links, i);
    ExpandPair(e, links, row);
  }

  lemma PairUnmatched(links: seq<Link>, row: Row)
    requires forall n: string :: Get(row, n) != ONE
    ensures Expand(Probe(false, true), links, [row, row]) == [row, row]
  {
    forall l | 0 <= l < |links| ensures MatchCount(Probe(false, true), row, links[l]) == 0 {
      assert Get(row, links[l].left) != ONE;
      NoMatches(Probe(false, true), row, links[l]);
    }
    ExpandUnmatched(Probe(false, true), links, [row, row]);
  }

  /** In the view nothing is one, so nothing matches. */
  lemma SeenUnmatched(k: Compiler, name: string, obj: ObjectDefinition, row: Row, files: Files, views: Views)
    requires UsableOn(k, name, files, map[], views) && FindObject(k.program, name) == Some(obj)
    requires HoldsRows(files, [row, row])
    requires forall n: string :: Get(Seen(obj, row), n) != ONE
    ensures RelatedRows(Probe(false, true), k, true, obj, files, views) == [Seen(obj, row), Seen(obj, row)]
  {
    OwnTable(k, name, true, [row, row], files, views);
    assert ViewRows(obj, [row, row]) == [Seen(obj, row), Seen(obj, row)];
    PairUnmatched(DeclaredLinks(k, true, obj, files, views), Seen(obj, row));
  }

  /** More rows alike than the view has, and none of the view's values is one. */
  lemma MoreRowsTell(k: Compiler, obj: ObjectDefinition, rows: seq<Row>, row: Row, seen: Row)
    requires |rows| >= 4 && forall i :: 0 <= i < |rows| ==> rows[i] == row
    requires forall n: string :: Get(seen, n) != ONE
    ensures Answer(Probe(false, true), k, obj, rows) != Answer(Probe(false, true), k, obj, [seen, seen])
  {
    var e := Probe(false, true);
    AllPass(e, k, obj, rows);
    AllPass(e, k, obj, [seen, seen]);
    if obj.aggregates == [] {
      SizesTell(OutputRows(e, obj, rows), OutputRows(e, obj, [seen, seen]));
    } else {
      OutputOfAlike(e, obj, rows, row);
      OutputOfAlike(e, obj, [seen, seen], seen);
      var field := obj.aggregates[0].field;
      ScoreCounts(FieldValues(rows, field));
      ScoreCounts(FieldValues([seen, seen], field));
      assert AggregateValues(e, obj, rows)[0] != AggregateValues(e, obj, [seen, seen])[0];
      GroupOutputTells(e, obj, rows, [seen, seen]);
      assert GroupOutput(e, obj, rows) in multiset(OutputRows(e, obj, rows));
    }
  }

  lemma GroupOutputTells(e: Engine, obj: ObjectDefinition, rows: seq<Row>, rows': seq<Row>)
    requires rows != [] && rows' != [] && AggregateValues(e, obj, rows) != AggregateValues(e, obj, rows')
    ensures GroupOutput(e, obj, rows) != GroupOutput(e, obj, rows')
  {
    var v, v' := RowValues(e, obj, obj.properties, rows[0]), RowValues(e, obj, obj.properties, rows'[0]);
    RowValuesLength(e, obj, obj.properties, rows[0], rows'[0]);
    if GroupOutput(e, obj, rows) == GroupOutput(e, obj, rows') {
      Unglue(v, AggregateValues(e, obj, rows), v', AggregateValues(e, obj, rows'));
    }
  }

  /** The own key of a relation: rows repeat inline and not in the view. */
  lemma KeyTells(k: Compiler, name: string, obj: ObjectDefinition, i: nat)
    requires Names(k, name, obj) && SourcesShown(obj) && i < |Relations(k, k.program, name)|
    requires !Shown(obj, Relations(k, k.program, name)[i].leftOn)
    ensures !AlwaysAgree(k, name)
  {
    var field := Relations(k, k.program, name)[i].leftOn;
    var row := OddRow(obj, field);
    ProbeRowsWithoutText(obj, field);
    forall n: string ensures Get(Seen(obj, row), n) != ONE { OddIsHidden(obj, field, n); }
    var files, views := Stage(k, name, [row, row]);
    var e := Probe(false, true);
    KeyRepeats(k, name, obj, row, files, views, i);
    SeenUnmatched(k, name, obj, row, files, views);
    MoreRowsTell(k, obj, RelatedRows(e, k, false, obj, files, views), row, Seen(obj, row));
    DisagreeOn(k, name, e, files, views);
  }

  // ----- exactly when the modes agree -----

  /** If the modes agree on all data, every mentioned own column is passed through. */
  lemma OwnColumnsPass(k: Compiler, name: string, c: Column)
    requires Usable(k, name) && AlwaysAgree(k, name)
    requires c in Columns(Compiled(k, false, name).value) && c.alias == name
    ensures PassedThrough(k, c)
  {
    CompiledIsAssembled(k, false, name);
    var obj := FindObject(k.program, name).value;
    forall p | p in obj.properties ensures Shown(obj, SourceField(p)) {
      if !Shown(obj, SourceField(p)) { SourceTells(k, name, obj, p); }
    }
    if !Shown(obj, c.name) { UnshownTells(k, name, obj, c); }
  }

  lemma FilterMentioned(k: Compiler, obj: ObjectDefinition, f: Filter)
    requires f in obj.filters
    ensures Column(obj.name, f.field) in Columns(Assembled(k, false, obj))
  {
    var q := Assembled(k, false, obj);
    var i :| 0 <= i < |obj.filters| && obj.filters[i] == f;
    assert q.conditions[i].col == Column(obj.name, f.field);
  }

  lemma UnshownTells(k: Compiler, name: string, obj: ObjectDefinition, c: Column)
    requires Names(k, name, obj) && SourcesShown(obj)
    requires c in Columns(Assembled(k, false, obj)) && c.alias == name && !Shown(obj, c.name)
    ensures !AlwaysAgree(k, name)
  {
    if f :| f in obj.filters && ViewSource(ViewColumns(obj.properties), f.field).None? {
      FilterMentioned(k, obj, f);
      HiddenTells(k, name, obj, Column(obj.name, f.field));
    } else {
      Origin(k, false, obj, c);
      OriginTells(k, name, obj, c);
    }
  }

  lemma OriginTells(k: Compiler, name: string, obj: ObjectDefinition, c: Column)
    requires Names(k, name, obj) && SourcesShown(obj) && c.alias == name && !Shown(obj, c.name)
    requires forall f :: f in obj.filters ==> ViewSource(ViewColumns(obj.properties), f.field).Some?
    requires IsSource(obj, c) || IsAggregated(obj, c) || IsFiltered(obj, c) || IsGrouped(obj, c)
          || IsLeftKey(k, obj, c) || IsRightKey(k, obj, c)
    ensures !AlwaysAgree(k, name)
  {
    if IsAggregated(obj, c) {
      var i :| 0 <= i < |obj.aggregates| && c == Column(obj.name, obj.aggregates[i].field);
      AggregateTells(k, name, obj, i);
    } else if IsFiltered(obj, c) {
      var i :| 0 <= i < |obj.filters| && c == Column(obj.name, obj.filters[i].field);
      FilterTells(k, name, obj, i);
    } else if IsGrouped(obj, c) {
      GroupTells(k, name, obj, c.name);
    } else if IsLeftKey(k, obj, c) {
      var i :| 0 <= i < |Relations(k, k.program, name)| && c == Column(name, Relations(k, k.program, name)[i].leftOn);
      KeyTells(k, name, obj, i);
    } else if IsRightKey(k, obj, c) {
      RightKeyIsForeign(k, name, obj, c);
    }
  }

  lemma DistinctAliases(aliases: seq<string>, i: nat)
    requires NoDup(aliases) && 0 < i < |aliases|
    ensures aliases[0] != aliases[i]
  {
  }

  /** A target's key is not an own column of an accepted query. */
  lemma RightKeyIsForeign(k: Compiler, name: string, obj: ObjectDefinition, c: Column)
    requires Names(k, name, obj) && IsRightKey(k, obj, c)
    ensures c.alias != name
  {
    var i :| 0 <= i < |Relations(k, k.program, name)| &&
      var rel := Relations(k, k.program, name)[i]; c == Column(rel.to, rel.rightOn);
    CompiledIsAssembled(k, false, name);
    TargetAlias(k, obj, i);
    DistinctAliases(Aliases(Assembled(k, false, obj)), i + 1);
  }

  /** Passed-through columns make the modes agree on all data. */
  lemma PassedColumnsAgree(k: Compiler, name: string)
    requires Compiled(k, false, name).Ok?
    requires forall c :: c in Columns(Compiled(k, false, name).value) ==> PassedThrough(k, c)
    ensures AlwaysAgree(k, name)
  {
    forall e: Engine, files: Files, before: Views, views: Views ensures AgreeOn(k, name, e, files, before, views) {
      if Prepared(k, name, files, before, views) {
        ViewModeDenotesInlineMode(k, name, e, files, before, views);
      }
    }
  }

  /**
   * For an object without relations, view mode agrees with inline mode on all data exactly when its view
   * passes every mentioned column through.
   */
  lemma ViewModeAgreesIff(k: Compiler, name: string)
    requires Usable(k, name) && Relations(k, k.program, name) == []
    ensures AlwaysAgree(k, name) <==> forall c :: c in Columns(Compiled(k, false, name).value) ==> PassedThrough(k, c)
  {
    CompiledIsAssembled(k, false, name);
    var obj := FindObject(k.program, name).value;
    if AlwaysAgree(k, name) {
      forall c | c in Columns(Compiled(k, false, name).value) ensures PassedThrough(k, c) {
        Origin(k, false, obj, c);
        OwnColumnsPass(k, name, c);
      }
    } else if forall c :: c in Columns(Compiled(k, false, name).value) ==> PassedThrough(k, c) {
      PassedColumnsAgree(k, name);
    }
  }

  /** With an aggregate the modes never agree on all data: a field that passes through cannot be aggregated. */
  lemma AggregatesNeverAgree(k: Compiler, name: string)
    requires Usable(k, name) && FindObject(k.program, name).value.aggregates != []
    ensures !AlwaysAgree(k, name)
  {
    UsableIsGrouped(k, name);
    var obj := FindObject(k.program, name).value;
    if Shown(obj, obj.aggregates[0].field) { ShownAggregateUngrouped(k, obj, 0); }
    if p :| p in obj.properties && !Shown(obj, SourceField(p)) {
      SourceTells(k, name, obj, p);
    } else {
      AggregateTells(k, name, obj, 0);
    }
  }

  lemma UsableIsGrouped(k: Compiler, name: string)
    requires Usable(k, name)
    ensures FindObject(k.program, name).Some? && GroupsCovered(Assembled(k, false, FindObject(k.program, name).value))
  {
    CompiledIsAssembled(k, false, name);
  }

  /** An aggregate over a field that the view shows is not grouped properly, in either mode. */
  lemma ShownAggregateUngrouped(k: Compiler, obj: ObjectDefinition, i: nat)
    requires i < |obj.aggregates| && Shown(obj, obj.aggregates[i].field)
    ensures !GroupsCovered(Assembled(k, false, obj)) && !GroupsCovered(Assembled(k, true, obj))
  {
    var field := obj.aggregates[i].field;
    ViewSourceIsProperty(obj.properties, field);
    assert field in AggregatedFields(obj);
    GroupsCoveredIff(k, false, obj);
    GroupsCoveredIff(k, true, obj);
  }

  /** In a plain program, whose aggregates use declared properties, both modes reject an object with an aggregate. */
  lemma PlainAggregatesRejected(
      k: Compiler, useViews: bool, obj: ObjectDefinition, e: Engine, files: Files, views: Views)
    requires PlainObject(k, obj) && obj.aggregates != []
    ensures Denote(e, files, views, Assembled(k, useViews, obj)) == None
  {
    var a := obj.aggregates[0];
    assert a in obj.aggregates && Declares(obj, a.field);
    var p :| p in obj.properties && p.name == a.field;
    AggregatedPropertyRejected(k, useViews, obj, p, a, e, files, views);
  }
}
