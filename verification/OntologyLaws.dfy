/**
 * What the ontology compiler reads, names and refuses, and how often each row comes out
 * (internal/dsl/compiler.go).
 */
module OntologyLaws {
  import opened Std
  import opened SqlQuery
  import opened OntologyCompiler
  import opened OntologyMeaning

  // ----- relations -----

  /** Statement `i` is a relation from the object to a declared one. */
  predicate Relates(k: Compiler, name: string, i: int) {
    && 0 <= i < |k.program| && k.program[i].RelationStatement?
    && k.program[i].rel.from == name && FindObject(k.program, k.program[i].rel.to).Some?
  }

  lemma RelationsNext(k: Compiler, name: string, n: nat)
    requires n < |k.program|
    ensures Relations(k, k.program[..n + 1], name) ==
      Relations(k, k.program[..n], name) + if Relates(k, name, n) then [k.program[n].rel] else []
  {
    assert k.program[..n + 1][..n] == k.program[..n];
  }

  lemma {:induction false} RelationsUpTo(k: Compiler, name: string, n: nat, relates: int -> bool, i: nat)
    requires n <= |k.program| && forall j :: 0 <= j < |k.program| ==> relates(j) == Relates(k, name, j)
    ensures |Relations(k, k.program[..n], name)| == |Marked(n, relates)|
    ensures i < n && Relates(k, name, i) ==>
      && |Marked(i, relates)| < |Marked(n, relates)|
      && Relations(k, k.program[..n], name)[|Marked(i, relates)|] == k.program[i].rel
  {
    if n == 0 {
      assert Marked(0, relates) == {};
    } else {
      RelationsNext(k, name, n - 1);
      MarkedNext(n - 1, relates);
      RelationsUpTo(k, name, n - 1, relates, i);
    }
  }

  /** Every relation from the object to a declared one is joined once, in the order of the program. */
  lemma RelationsInOrder(k: Compiler, name: string, i: nat)
    ensures var relates := (j: int) => Relates(k, name, j);
      && |Relations(k, k.program, name)| == |Marked(|k.program|, relates)|
      && (Relates(k, name, i) ==>
            && |Marked(i, relates)| < |Relations(k, k.program, name)|
            && Relations(k, k.program, name)[|Marked(i, relates)|] == k.program[i].rel)
  {
    RelationsUpTo(k, name, |k.program|, (j: int) => Relates(k, name, j), i);
    assert k.program[..|k.program|] == k.program;
  }

  // ----- sources -----

  predicate ReadsObject(k: Compiler, useViews: bool, source: Source, obj: ObjectDefinition) {
    source == if useViews then View(obj.name)
              else Parquet(k.dataRoot + "/" + obj.fromSource + "/latest/*.parquet")
  }

  /** A compiled query reads the object and joins each target under its name, on the declared keys. */
  lemma SourcesRead(k: Compiler, useViews: bool, name: string, i: nat)
    requires Compiled(k, useViews, name).Ok?
    ensures var q, rels := Compiled(k, useViews, name).value, Relations(k, k.program, name);
      && FindObject(k.program, name).Some? && q.alias == name
      && ReadsObject(k, useViews, q.from, FindObject(k.program, name).value)
      && |q.joins| == |rels|
      && (i < |rels| ==>
            && FindObject(k.program, rels[i].to).Some?
            && ReadsObject(k, useViews, q.joins[i].source, FindObject(k.program, rels[i].to).value)
            && q.joins[i].alias == rels[i].to
            && q.joins[i].left == Column(name, rels[i].leftOn)
            && q.joins[i].right == Column(rels[i].to, rels[i].rightOn))
  {
    RelationsHaveTargets(k, k.program, name);
  }

  // ----- refusals -----

  predicate PathRefused(k: Compiler, obj: ObjectDefinition) {
    !k.pathOk(k.dataRoot + "/" + obj.fromSource + "/latest/*.parquet")
  }

  /** Relation `i` is the first one whose target has a refused path. */
  ghost predicate FirstRefused(k: Compiler, rels: seq<Relation>, i: int)
    requires HasTargets(k, rels)
  {
    && 0 <= i < |rels| && PathRefused(k, FindObject(k.program, rels[i].to).value)
    && forall j :: 0 <= j < i ==> !PathRefused(k, FindObject(k.program, rels[j].to).value)
  }

  lemma {:induction false} RefusedRelationIff(k: Compiler, rels: seq<Relation>) returns (i: nat)
    requires HasTargets(k, rels)
    ensures if (forall j :: 0 <= j < |rels| ==> !PathRefused(k, FindObject(k.program, rels[j].to).value))
      then RefusedRelation(k, rels) == None
      else FirstRefused(k, rels, i) && RefusedRelation(k, rels) == Some(rels[i].name)
  {
    i := 0;
    if rels != [] && !PathRefused(k, FindObject(k.program, rels[0].to).value) {
      assert forall j :: 0 <= j < |rels[1..]| ==> rels[1..][j] == rels[j + 1];
      var n := RefusedRelationIff(k, rels[1..]);
      i := n + 1;
      assert forall j :: 0 < j < |rels| ==> rels[j] == rels[1..][j - 1];
    }
  }

  ghost predicate FirstBadFilter(k: Compiler, filters: seq<Filter>, i: int) {
    && 0 <= i < |filters| && FilterRefused(k, filters[i])
    && forall j :: 0 <= j < i ==> !FilterRefused(k, filters[j])
  }

  lemma {:induction false} RefusedFilterIff(k: Compiler, filters: seq<Filter>) returns (i: nat)
    ensures if (forall j :: 0 <= j < |filters| ==> !FilterRefused(k, filters[j])) then RefusedFilter(k, filters) == None
      else FirstBadFilter(k, filters, i) && RefusedFilter(k, filters) == Some(filters[i].value)
  {
    i := 0;
    if filters != [] && !FilterRefused(k, filters[0]) {
      assert forall j :: 0 <= j < |filters[1..]| ==> filters[1..][j] == filters[j + 1];
      var n := RefusedFilterIff(k, filters[1..]);
      i := n + 1;
      assert forall j :: 0 < j < |filters| ==> filters[j] == filters[1..][j - 1];
    }
  }

  /**
   * An undeclared object is refused; then, inline only, the first relation whose target has a bad path; then the
   * first bad filter value; then, inline only, the object's own bad path.  Everything else compiles.
   */
  lemma CompileOutcome(k: Compiler, useViews: bool, name: string)
    ensures var r, found := Compiled(k, useViews, name), FindObject(k.program, name);
      var rels := Relations(k, k.program, name);
      && HasTargets(k, rels)
      && (found.None? <==> r == Err(ObjectNotFound))
      && (found.Some? ==>
            var filters := found.value.filters;
            if !useViews && exists i :: FirstRefused(k, rels, i) then
              exists i :: FirstRefused(k, rels, i) && r == Err(BadRelationSource(rels[i].name))
            else if exists i :: FirstBadFilter(k, filters, i) then
              exists i :: FirstBadFilter(k, filters, i) && r == Err(BadFilterValue(filters[i].value))
            else if !useViews && PathRefused(k, found.value) then r == Err(BadSource(name))
            else r.Ok?)
  {
    RelationsHaveTargets(k, k.program, name);
    var i := RefusedRelationIff(k, Relations(k, k.program, name));
    if FindObject(k.program, name).Some? {
      var j := RefusedFilterIff(k, FindObject(k.program, name).value.filters);
    }
  }

  // ----- views -----

  /** Statement `i` declares an object. */
  predicate Declared(k: Compiler, i: int) {
    0 <= i < |k.program| && k.program[i].ObjectStatement?
  }

  /** What the DDL creates for a declared object. */
  predicate ShowsObject(k: Compiler, v: ViewDefinition, obj: ObjectDefinition) {
    && v.name == obj.name && v.path == k.dataRoot + "/" + obj.fromSource + "/latest/*.parquet"
    && |v.columns| == |obj.properties|
    && forall j :: 0 <= j < |v.columns| ==>
         var p := obj.properties[j];
         v.columns[j] == ViewColumn(if p.from == "" then p.name else p.from, p.name)
  }

  lemma ViewsNext(k: Compiler, n: nat)
    requires n < |k.program|
    ensures var before, s := CompiledViews(k, k.program[..n]), k.program[n];
      CompiledViews(k, k.program[..n + 1]) ==
        if before.Err? || !s.ObjectStatement? then before
        else if !k.pathOk(s.obj.fromSource) then Err(BadSource(s.obj.name))
        else Ok(before.value + [ViewOf(k, s.obj)])
  {
    assert k.program[..n + 1][..n] == k.program[..n];
  }

  lemma {:induction false} ViewsOkIff(k: Compiler, n: nat)
    requires n <= |k.program|
    ensures CompiledViews(k, k.program[..n]).Ok? <==>
      forall j :: 0 <= j < n && Declared(k, j) ==> k.pathOk(k.program[j].obj.fromSource)
  {
    if n > 0 {
      ViewsNext(k, n - 1);
      ViewsOkIff(k, n - 1);
    }
  }

  lemma {:induction false} ViewsUpTo(k: Compiler, n: nat, declared: int -> bool, i: nat)
    requires n <= |k.program| && CompiledViews(k, k.program[..n]).Ok?
    requires forall j :: 0 <= j < |k.program| ==> declared(j) == Declared(k, j)
    ensures var views := CompiledViews(k, k.program[..n]).value;
      && |views| == |Marked(n, declared)|
      && (i < n && Declared(k, i) ==>
            |Marked(i, declared)| < |views| && views[|Marked(i, declared)|] == ViewOf(k, k.program[i].obj))
  {
    if n == 0 {
      assert Marked(0, declared) == {};
    } else {
      ViewsNext(k, n - 1);
      MarkedNext(n - 1, declared);
      ViewsUpTo(k, n - 1, declared, i);
    }
  }

  lemma ViewShowsObject(k: Compiler, obj: ObjectDefinition)
    ensures ShowsObject(k, ViewOf(k, obj), obj)
  {
  }

  /** The DDL is refused exactly for a bad source, and else shows every declared object once, in order. */
  lemma ViewsInOrder(k: Compiler, i: nat)
    ensures var r, declared := CompiledViews(k, k.program), (j: int) => Declared(k, j);
      && (r.Ok? <==> forall j :: 0 <= j < |k.program| && Declared(k, j) ==> k.pathOk(k.program[j].obj.fromSource))
      && (r.Ok? ==> |r.value| == |Marked(|k.program|, declared)|)
      && (r.Ok? && Declared(k, i) ==>
            && |Marked(i, declared)| < |r.value| && ShowsObject(k, r.value[|Marked(i, declared)|], k.program[i].obj))
  {
    assert k.program[..|k.program|] == k.program;
    ViewsOkIff(k, |k.program|);
    if CompiledViews(k, k.program).Ok? { ViewsUpTo(k, |k.program|, (j: int) => Declared(k, j), i); }
    if Declared(k, i) { ViewShowsObject(k, k.program[i].obj); }
  }

  // ----- output names -----

  /** The names of the outputs as they are written, quotes left out. */
  function Names(items: seq<SelectItem>): (names: seq<string>) {
    seq(|items|, i requires 0 <= i < |items| => items[i].output + items[i].suffix)
  }

  /** The names of one property: its placeholders, then its own. */
  function NamesOf(obj: ObjectDefinition, p: Property): seq<string> {
    (if p.predict then [p.name + "_probability", p.name + "_vector"] else [])
    + seq(|obj.factors|, i requires 0 <= i < |obj.factors| => "_factor_" + obj.factors[i])
    + [p.name]
  }

  function PropertyNames(obj: ObjectDefinition, props: seq<Property>): seq<string> {
    if props == [] then [] else NamesOf(obj, props[0]) + PropertyNames(obj, props[1..])
  }

  lemma NamesConcat(a: seq<SelectItem>, b: seq<SelectItem>)
    ensures Names(a + b) == Names(a) + Names(b)
  {
  }

  lemma {:induction false} PropertyNamesAppend(obj: ObjectDefinition, props: seq<Property>, p: Property)
    ensures PropertyNames(obj, props + [p]) == PropertyNames(obj, props) + NamesOf(obj, p)
  {
    if props == [] {
      assert props + [p] == [p] && [p][1..] == [];
      assert NamesOf(obj, p) + [] == NamesOf(obj, p);
    } else {
      assert (props + [p])[0] == props[0] && (props + [p])[1..] == props[1..] + [p];
      PropertyNamesAppend(obj, props[1..], p);
      Regrouped(NamesOf(obj, props[0]), PropertyNames(obj, props[1..]), NamesOf(obj, p));
    }
  }

  lemma Regrouped(a: seq<string>, b: seq<string>, c: seq<string>)
    ensures a + (b + c) == (a + b) + c
  {
  }

  lemma NamesOfProperty(obj: ObjectDefinition, p: Property)
    ensures Names(PropertyItems(obj, p)) == NamesOf(obj, p)
  {
    assert forall s: string :: s + "" == s;
  }

  lemma {:induction false} NamesOfProperties(obj: ObjectDefinition, props: seq<Property>)
    ensures Names(PropertySelect(obj, props)) == PropertyNames(obj, props)
  {
    if props != [] {
      var front, p := props[..|props| - 1], props[|props| - 1];
      NamesOfProperties(obj, front);
      NamesConcat(PropertySelect(obj, front), PropertyItems(obj, p));
      NamesOfProperty(obj, p);
      PropertyNamesAppend(obj, front, p);
      assert props == front + [p];
    }
  }

  /** The outputs are named by the properties, in order, with their placeholders, then by the aggregates. */
  lemma OutputNames(k: Compiler, useViews: bool, obj: ObjectDefinition, i: nat)
    ensures var names := Names(Assembled(k, useViews, obj).select);
      var n := |PropertyNames(obj, obj.properties)|;
      && |names| == n + |obj.aggregates| && names[..n] == PropertyNames(obj, obj.properties)
      && (i < |obj.aggregates| ==> names[n + i] == obj.aggregates[i].alias)
  {
    NamesOfProperties(obj, obj.properties);
    NamesConcat(PropertySelect(obj, obj.properties), AggregateItems(obj));
    assert forall s: string :: s + "" == s;
  }

  // ----- how often a row comes out -----

  function Matching(e: Engine, row: Row, link: Link): set<int> {
    Marked(|link.rows|, i => 0 <= i < |link.rows| && e.equal(Get(row, link.left), Get(link.rows[i], link.right)))
  }

  /** A left join repeats a row once for each matching row of the target. */
  lemma {:induction false} MatchesCounted(e: Engine, row: Row, link: Link)
    ensures MatchCount(e, row, link) == |Matching(e, row, link)|
    decreases |link.rows|
  {
    if link.rows == [] {
      assert Matching(e, row, link) == {};
    } else {
      var rest := link.(rows := link.rows[1..]);
      MatchesCounted(e, row, rest);
      MarkedFirst(
        |link.rows|,
        i => 0 <= i < |link.rows| && e.equal(Get(row, link.left), Get(link.rows[i], link.right)),
        i => 0 <= i < |rest.rows| && e.equal(Get(row, rest.left), Get(rest.rows[i], rest.right)));
    }
  }

  lemma {:induction false} RepeatCount(row: Row, n: nat, r: Row)
    ensures multiset(Repeat(row, n))[r] == if r == row then n else 0
  {
    if n > 0 { RepeatCount(row, n - 1, r); }
  }

  /** The relations multiply how often a row occurs, each by its matches and at least by one. */
  lemma {:induction false} ExpandCount(e: Engine, links: seq<Link>, rows: seq<Row>, r: Row)
    ensures multiset(Expand(e, links, rows))[r] == multiset(rows)[r] * Multiplicity(e, r, links)
  {
    if rows != [] {
      ExpandCount(e, links, rows[1..], r);
      RepeatCount(rows[0], Multiplicity(e, rows[0], links), r);
      FirstCounted(rows, r);
      CountsAdd(Repeat(rows[0], Multiplicity(e, rows[0], links)), Expand(e, links, rows[1..]), r);
      OneMoreTimes(multiset(rows[1..])[r], Multiplicity(e, r, links));
    }
  }

  lemma FirstCounted(rows: seq<Row>, r: Row)
    requires rows != []
    ensures multiset(rows)[r] == multiset(rows[1..])[r] + if rows[0] == r then 1 else 0
  {
    assert rows == [rows[0]] + rows[1..];
  }

  lemma CountsAdd(a: seq<Row>, b: seq<Row>, r: Row)
    ensures multiset(a + b)[r] == multiset(a)[r] + multiset(b)[r]
  {
  }

  lemma OneMoreTimes(m: nat, n: nat)
    ensures (m + 1) * n == m * n + n
  {
  }

  /** A filter keeps every occurrence of a row or none. */
  lemma {:induction false} MeetingCount(m: Comparison, k: Compiler, obj: ObjectDefinition, rows: seq<Row>, r: Row)
    ensures multiset(Meeting(m, k, obj, rows))[r] == if RowMeets(m, k, obj, r) then multiset(rows)[r] else 0
  {
    if rows != [] {
      MeetingCount(m, k, obj, rows[1..], r);
      FirstCounted(rows, r);
    }
  }

  /** A group holds every occurrence of a row with its key. */
  lemma {:induction false} GroupCount(rows: seq<Row>, fields: seq<string>, key: seq<Value>, r: Row)
    ensures multiset(RowsWith(rows, fields, key))[r] == if RowKey(r, fields) == key then multiset(rows)[r] else 0
  {
    if rows != [] {
      GroupCount(rows[1..], fields, key, r);
      FirstCounted(rows, r);
    }
  }

  /** How often a row of the table is among the rows an object's query answers from. */
  lemma RowsAnswered(
      k: Compiler, useViews: bool, obj: ObjectDefinition, e: Engine, m: Comparison, files: Files, views: Views, r: Row)
    ensures var table := RowsAt(files, views, ReadFrom(k, useViews, obj));
      var links := DeclaredLinks(k, useViews, obj, files, views);
      multiset(Meeting(m, k, obj, RelatedRows(e, k, useViews, obj, files, views)))[r]
      == if RowMeets(m, k, obj, r) then multiset(table)[r] * Multiplicity(e, r, links) else 0
  {
    MeetingCount(m, k, obj, RelatedRows(e, k, useViews, obj, files, views), r);
    ExpandCount(e, DeclaredLinks(k, useViews, obj, files, views), RowsAt(files, views, ReadFrom(k, useViews, obj)), r);
  }
}
