/** Declarations for which view mode and inline mode of the ontology compiler differ (internal/dsl/compiler.go). */
module OntologyExamples {
  import opened Std
  import opened SqlQuery
  import opened OntologyCompiler
  import opened OntologyMeaning
  import opened OntologyModes

  /** A program of one object, with every check passing. */
  function Alone(obj: ObjectDefinition): Compiler {
    Compiler([ObjectStatement(obj)], "/data", (_: string) => true, (_: string) => true, (_: string) => true)
  }

  /** Every field the object mentions. */
  function AllFields(obj: ObjectDefinition): set<string> {
    (set p | p in obj.properties :: SourceField(p)) + (set p | p in obj.properties :: p.name) + AggregatedFields(obj)
  }

  /** Every path holds these rows, with all the fields of the object. */
  function AloneFiles(obj: ObjectDefinition, rows: seq<Row>): Files {
    ProbeFiles(AllFields(obj), rows)
  }

  /** What the DDL creates. */
  function AloneViews(obj: ObjectDefinition, rows: seq<Row>): Views {
    map[obj.name := Table(ViewNames(ViewColumns(obj.properties)), ViewRows(obj, rows))]
  }

  ghost predicate NothingPredicted(obj: ObjectDefinition) {
    forall p :: p in obj.properties ==> !p.predict
  }

  lemma AloneCompiles(obj: ObjectDefinition, useViews: bool)
    requires obj.filters == []
    ensures FindObject(Alone(obj).program, obj.name) == Some(obj)
    ensures Relations(Alone(obj), Alone(obj).program, obj.name) == []
    ensures Compiled(Alone(obj), useViews, obj.name) == Ok(Assembled(Alone(obj), useViews, obj))
  {
    var k := Alone(obj);
    assert k.program[..0] == [];
    assert Relations(k, k.program, obj.name) == Relations(k, [], obj.name);
  }

  lemma AloneDeploys(obj: ObjectDefinition, rows: seq<Row>)
    requires obj.properties != []
    ensures CompiledViews(Alone(obj), Alone(obj).program) == Ok([ViewOf(Alone(obj), obj)])
    ensures CreateViews(AloneFiles(obj, rows), [ViewOf(Alone(obj), obj)], map[]) == Some(AloneViews(obj, rows))
  {
    var k, v, files := Alone(obj), ViewOf(Alone(obj), obj), AloneFiles(obj, rows);
    assert k.program[..0] == [] && [v][..0] == [] && [] + [v] == [v];
    assert CompiledViews(k, []) == Ok([]) && CreateViews(files, [], map[]) == Some(map[]);
    assert ViewAccepted(files, v) by {
      assert forall i :: 0 <= i < |obj.properties| ==> obj.properties[i] in obj.properties;
    }
    assert ViewTable(files, v).rows == ViewRows(obj, rows);
  }

  lemma AloneMentions(obj: ObjectDefinition, c: Column)
    requires obj.filters == [] && c in Columns(Assembled(Alone(obj), false, obj))
    ensures c.name in AllFields(obj)
  {
    AloneCompiles(obj, false);
    Origin(Alone(obj), false, obj, c);
  }

  lemma AloneUsable(obj: ObjectDefinition, rows: seq<Row>)
    requires obj.filters == [] && obj.properties != [] && NothingPredicted(obj)
    requires GroupsCovered(Assembled(Alone(obj), false, obj))
    ensures UsableOn(Alone(obj), obj.name, AloneFiles(obj, rows), map[], AloneViews(obj, rows))
  {
    var k := Alone(obj);
    var q := Assembled(k, false, obj);
    AloneCompiles(obj, false);
    AloneDeploys(obj, rows);
    PropertySelectExact(obj, obj.properties);
    assert obj.properties[0] in obj.properties;
    assert q.joins == [] && Aliases(q) == [obj.name];
    forall c | c in Columns(q) ensures c.name in AllFields(obj) { AloneMentions(obj, c); }
    ParsesIff(k, false, obj);
    ProbeAccepted(k, obj, AllFields(obj), rows, AloneViews(obj, rows));
  }

  /** Accepted inline on this data, and rejected over the views. */
  ghost predicate OnlyInline(obj: ObjectDefinition, e: Engine, rows: seq<Row>) {
    && Denote(e, AloneFiles(obj, rows), AloneViews(obj, rows), Assembled(Alone(obj), false, obj)).Some?
    && Denote(e, AloneFiles(obj, rows), AloneViews(obj, rows), Assembled(Alone(obj), true, obj)).None?
  }

  lemma HiddenOnlyInline(obj: ObjectDefinition, e: Engine, rows: seq<Row>, c: Column)
    requires obj.filters == [] && obj.properties != [] && NothingPredicted(obj)
    requires GroupsCovered(Assembled(Alone(obj), false, obj))
    requires c in Columns(Assembled(Alone(obj), false, obj)) && c.alias == obj.name
    requires ViewSource(ViewColumns(obj.properties), c.name).None?
    ensures OnlyInline(obj, e, rows)
  {
    AloneUsable(obj, rows);
    AloneCompiles(obj, false);
    AloneCompiles(obj, true);
    HiddenColumnRejected(Alone(obj), obj.name, e, AloneFiles(obj, rows), map[], AloneViews(obj, rows), c);
  }

  lemma AggregateMentioned(k: Compiler, obj: ObjectDefinition, i: nat)
    requires i < |obj.aggregates|
    ensures Column(obj.name, obj.aggregates[i].field) in Columns(Assembled(k, false, obj))
  {
    var q, c := Assembled(k, false, obj), Column(obj.name, obj.aggregates[i].field);
    var n := |PropertySelect(obj, obj.properties)| + i;
    assert q.select[n] == AggregateItems(obj)[i];
    assert c in ExprColumns(q.select[n].expr);
  }

  lemma SourceMentioned(k: Compiler, obj: ObjectDefinition, p: Property)
    requires p in obj.properties
    ensures Column(obj.name, SourceField(p)) in Columns(Assembled(k, false, obj))
  {
    var q, c := Assembled(k, false, obj), Column(obj.name, SourceField(p));
    SelectedColumnsExact(k, false, obj, c);
    var i :| 0 <= i < |q.select| && Selects(q.select[i], c);
    assert c in ExprColumns(q.select[i].expr);
  }

  /** An aggregate over a field that is no property, next to properties that can be grouped. */
  lemma UndeclaredAggregateOnlyInline(obj: ObjectDefinition, i: nat, e: Engine, rows: seq<Row>)
    requires obj.filters == [] && obj.properties != [] && NothingPredicted(obj)
    requires i < |obj.aggregates| && !Declares(obj, obj.aggregates[i].field)
    requires forall p :: p in obj.properties ==> Groupable(obj, SourceField(p))
    ensures OnlyInline(obj, e, rows)
  {
    var field := obj.aggregates[i].field;
    GroupsCoveredIff(Alone(obj), false, obj);
    AggregateMentioned(Alone(obj), obj, i);
    if ViewSource(ViewColumns(obj.properties), field).Some? { ViewSourceIsProperty(obj.properties, field); }
    HiddenOnlyInline(obj, e, rows, Column(obj.name, field));
  }

  const STATISTICHE: ObjectDefinition :=
    ObjectDefinition("Statistiche", "bandi", [Property("tipo", "", false, [])], [], [],
                     [Aggregate("sum", "importo", "totale_importo")])

  /** Grouped by tipo with the sum of importo: answered inline, rejected over the view, which has no importo. */
  lemma StatisticheOnlyInline(e: Engine, rows: seq<Row>)
    ensures OnlyInline(STATISTICHE, e, rows)
  {
    assert STATISTICHE.aggregates[0].field == "importo";
    assert STATISTICHE.aggregates[0] in STATISTICHE.aggregates;
    assert AggregatedFields(STATISTICHE) == {"importo"};
    assert STATISTICHE.properties[0] in STATISTICHE.properties;
    UndeclaredAggregateOnlyInline(STATISTICHE, 0, e, rows);
  }

  const RENAMED: ObjectDefinition := ObjectDefinition("Renamed", "d", [Property("b", "a", false, [])], [], [], [])

  /** A renamed property: the view shows b, both modes select a. */
  lemma RenamedOnlyInline(e: Engine, rows: seq<Row>)
    ensures OnlyInline(RENAMED, e, rows)
  {
    var obj, k := RENAMED, Alone(RENAMED);
    GroupsCoveredIff(k, false, obj);
    assert obj.properties[0] in obj.properties;
    SourceMentioned(k, obj, obj.properties[0]);
    assert ViewColumns(obj.properties)[1..] == [];
    HiddenOnlyInline(obj, e, rows, Column("Renamed", "a"));
  }

  const SWAPPED: ObjectDefinition :=
    ObjectDefinition("Swapped", "d", [Property("x", "y", false, []), Property("y", "x", false, [])], [], [], [])

  lemma SwappedValues(e: Engine, row: Row)
    ensures RowValues(e, SWAPPED, SWAPPED.properties, row) == [Get(row, "y"), Get(row, "x")]
    ensures Get(Seen(SWAPPED, row), "x") == Get(row, "y") && Get(Seen(SWAPPED, row), "y") == Get(row, "x")
  {
    var props := SWAPPED.properties;
    assert props[..1] == [props[0]] && [props[0]][..0] == [];
    assert RowValues(e, SWAPPED, [props[0]], row) == [] + PropertyOutput(e, SWAPPED, props[0], row);
    assert ViewColumns(props)[1..] == [ViewColumn("x", "y")];
    assert ViewSource([ViewColumn("x", "y")], "y") == Some("x");
    assert ViewColumns(props)[0].name == "x" && ViewColumns(props)[1].name == "y";
  }

  /** Properties that swap two names: both modes answer, with the values swapped. */
  lemma SwappedDiffer(e: Engine)
    ensures var row := map["x" := Number(1.0), "y" := Number(2.0)];
      var files, views := AloneFiles(SWAPPED, [row]), AloneViews(SWAPPED, [row]);
      && Denote(e, files, views, Assembled(Alone(SWAPPED), false, SWAPPED)) ==
        Some(multiset{[Number(2.0), Number(1.0)]})
      && Denote(e, files, views, Assembled(Alone(SWAPPED), true, SWAPPED)) == Some(multiset{[Number(1.0), Number(2.0)]})
  {
    var obj, k, row := SWAPPED, Alone(SWAPPED), map["x" := Number(1.0), "y" := Number(2.0)];
    var files, views := AloneFiles(obj, [row]), AloneViews(obj, [row]);
    GroupsCoveredIff(k, false, obj);
    AloneUsable(obj, [row]);
    AloneCompiles(obj, false);
    SwappedViewAccepted([row]);
    SwappedValues(e, row);
    SwappedValues(e, Seen(obj, row));
    PlainAnswer(e, false, row, files, views);
    PlainAnswer(e, true, row, files, views);
  }

  lemma SwappedWellFormed()
    ensures var q := Assembled(Alone(SWAPPED), true, SWAPPED);
      WellFormed(q) && q.joins == [] && Aliases(q) == [SWAPPED.name] && SourceOfAlias(q, 0) == View(SWAPPED.name)
  {
    var obj, k := SWAPPED, Alone(SWAPPED);
    AloneCompiles(obj, true);
    GroupsCoveredIff(k, true, obj);
    ParsesIff(k, true, obj);
    PropertySelectExact(obj, obj.properties);
    assert obj.properties[0] in obj.properties;
    assert Aliases(Assembled(k, true, obj)) == [obj.name];
  }

  lemma SwappedMentions(c: Column)
    requires c in Columns(Assembled(Alone(SWAPPED), true, SWAPPED))
    ensures c.alias == SWAPPED.name && c.name in ViewNames(ViewColumns(SWAPPED.properties))
  {
    var obj, k := SWAPPED, Alone(SWAPPED);
    AloneCompiles(obj, true);
    Origin(k, true, obj, c);
    assert ViewColumns(obj.properties)[0].name == "x" && ViewColumns(obj.properties)[1].name == "y";
  }

  lemma SwappedViewAccepted(rows: seq<Row>)
    ensures Accepted(AloneFiles(SWAPPED, rows), AloneViews(SWAPPED, rows), Assembled(Alone(SWAPPED), true, SWAPPED))
  {
    var files, views := AloneFiles(SWAPPED, rows), AloneViews(SWAPPED, rows);
    var q := Assembled(Alone(SWAPPED), true, SWAPPED);
    SwappedWellFormed();
    forall c | c in Columns(q) ensures AllResolve(files, views, q) && Binds(files, views, q, c) {
      SwappedMentions(c);
      assert c.alias == Aliases(q)[0];
    }
  }

  /** An accepted query of the swapped object over one row. */
  lemma PlainAnswer(e: Engine, useViews: bool, row: Row, files: Files, views: Views)
    requires files == AloneFiles(SWAPPED, [row]) && views == AloneViews(SWAPPED, [row])
    requires Accepted(files, views, Assembled(Alone(SWAPPED), useViews, SWAPPED))
    ensures var r := if useViews then Seen(SWAPPED, row) else row;
      Denote(e, files, views, Assembled(Alone(SWAPPED), useViews, SWAPPED))
      == Some(multiset{RowValues(e, SWAPPED, SWAPPED.properties, r)})
  {
    var obj, k, r := SWAPPED, Alone(SWAPPED), if useViews then Seen(SWAPPED, row) else row;
    AloneCompiles(obj, useViews);
    QueryDenotesPassing(k, useViews, obj, e, files, views);
    assert DeclaredLinks(k, useViews, obj, files, views) == [];
    assert RowsAt(files, views, ReadFrom(k, useViews, obj)) == [r];
    ExpandByNone(e, [r]);
    AllPass(e, k, obj, [r]);
    assert OutputRows(e, obj, [r]) == [RowValues(e, obj, obj.properties, r)];
  }
}
