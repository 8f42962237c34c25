/**
 * Dependency ordering of a plan (internal/decision/engine.go, SortStepsByDependencies).
 *
 * A depth-first search with three colours visits every step; a step is emitted when all its
 * dependencies have been tried.  Names may repeat (the last step of a name wins), may be unknown
 * (ignored) and may form cycles (a step under visit is skipped).
 */
module StepOrder {
  import opened Std
  import opened Plan

  datatype Color = White | Gray | Black

  /** The search state: one colour per step and the positions emitted so far. */
  datatype Search = Search(color: seq<Color>, order: seq<nat>)

  /** What the name index answers: the last step of that name. */
  function LastIndex(steps: seq<PlannedStep>, name: string): (r: Option<nat>)
    ensures r.Some? ==> r.value < |steps| && steps[r.value].toolName == name
    ensures r.Some? ==> forall j :: r.value < j < |steps| ==> steps[j].toolName != name
    ensures r.None? ==> forall j :: 0 <= j < |steps| ==> steps[j].toolName != name
  {
    if steps == [] then None
    else if steps[|steps| - 1].toolName == name then Some(|steps| - 1)
    else LastIndex(steps[..|steps| - 1], name)
  }

  function Whites(s: Search): set<nat> {
    set j: nat | j < |s.color| && s.color[j] == White
  }

  function Visit(steps: seq<PlannedStep>, i: nat, s: Search): (r: Search)
    requires |s.color| == |steps| && i < |steps|
    ensures |r.color| == |steps| && Whites(r) <= Whites(s)
    decreases Whites(s), 0
  {
    if s.color[i] != White then s
    else
      var s1 := s.(color := s.color[i := Gray]);
      assert i in Whites(s) && i !in Whites(s1);
      var s2 := VisitAll(steps, steps[i].depends, s1);
      Search(s2.color[i := Black], s2.order + [i])
  }

  function VisitAll(steps: seq<PlannedStep>, names: seq<string>, s: Search): (r: Search)
    requires |s.color| == |steps|
    ensures |r.color| == |steps| && Whites(r) <= Whites(s)
    decreases Whites(s), 1 + |names|
  {
    if names == [] then s
    else
      var s1 := match LastIndex(steps, names[0])
        case Some(d) => Visit(steps, d, s)
        case None => s;
      VisitAll(steps, names[1..], s1)
  }

  /** The outer loop: visit every step still white, from position `i` on. */
  function VisitFrom(steps: seq<PlannedStep>, i: nat, s: Search): (r: Search)
    requires |s.color| == |steps| && i <= |steps|
    ensures |r.color| == |steps|
    decreases |steps| - i
  {
    if i == |steps| then s
    else VisitFrom(steps, i + 1, if s.color[i] == White then Visit(steps, i, s) else s)
  }

  function Start(n: nat): (s: Search) {
    Search(seq(n, _ => White), [])
  }

  /** The positions of the input in the order in which they are emitted. */
  function Order(steps: seq<PlannedStep>): (order: seq<nat>) {
    VisitFrom(steps, 0, Start(|steps|)).order
  }

  // ----- what the order means -----

  /** Step `i` names a dependency that resolves to step `d`. */
  ghost predicate Edge(steps: seq<PlannedStep>, i: nat, d: nat) {
    i < |steps| && exists name :: name in steps[i].depends && LastIndex(steps, name) == Some(d)
  }

  ghost predicate IsPath(steps: seq<PlannedStep>, path: seq<nat>) {
    |path| > 0 && forall k :: 0 <= k < |path| - 1 ==> Edge(steps, path[k], path[k + 1])
  }

  /** `a` depends on `b`, directly or through other steps; every step reaches itself. */
  ghost predicate Reaches(steps: seq<PlannedStep>, a: nat, b: nat) {
    exists path :: IsPath(steps, path) && path[0] == a && path[|path| - 1] == b
  }

  ghost predicate Precedes(order: seq<nat>, a: nat, b: nat) {
    exists p, q :: 0 <= p < q < |order| && order[p] == a && order[q] == b
  }

  /** Every edge out of an emitted step is respected, or its target depends back on the step. */
  ghost predicate EdgesRespected(steps: seq<PlannedStep>, order: seq<nat>) {
    forall p, d :: 0 <= p < |order| && Edge(steps, order[p], d) ==>
      d in order[..p] || Reaches(steps, d, order[p])
  }

  ghost predicate Consistent(steps: seq<PlannedStep>, s: Search) {
    && |s.color| == |steps|
    && NoDup(s.order)
    && (forall j :: j in s.order ==> j < |steps|)
    && (forall j :: 0 <= j < |steps| ==> (j in s.order <==> s.color[j] == Black))
    && EdgesRespected(steps, s.order)
  }

  /** The steps under visit are exactly callers of `i`. */
  ghost predicate CallersReach(steps: seq<PlannedStep>, s: Search, i: nat) {
    forall g :: 0 <= g < |s.color| && s.color[g] == Gray ==> Reaches(steps, g, i)
  }

  ghost predicate Extends(s: Search, r: Search) {
    && |r.color| == |s.color|
    && s.order <= r.order
    && (forall j :: 0 <= j < |s.color| ==> (s.color[j] == Gray <==> r.color[j] == Gray))
    && (forall j :: 0 <= j < |s.color| && s.color[j] == Black ==> r.color[j] == Black)
  }

  lemma ReachesSelf(steps: seq<PlannedStep>, a: nat)
    ensures Reaches(steps, a, a)
  {
    assert IsPath(steps, [a]);
  }

  lemma ReachesEdge(steps: seq<PlannedStep>, a: nat, b: nat, c: nat)
    requires Reaches(steps, a, b) && Edge(steps, b, c)
    ensures Reaches(steps, a, c)
  {
    var path :| IsPath(steps, path) && path[0] == a && path[|path| - 1] == b;
    var longer := path + [c];
    assert IsPath(steps, longer);
    assert longer[0] == a && longer[|longer| - 1] == c;
  }

  lemma {:induction false} VisitKeeps(steps: seq<PlannedStep>, i: nat, s: Search)
    requires Consistent(steps, s) && i < |steps| && CallersReach(steps, s, i)
    ensures var r := Visit(steps, i, s);
      Consistent(steps, r) && Extends(s, r) && r.color[i] != White
    decreases Whites(s), 0
  {
    if s.color[i] == White {
      var s1 := s.(color := s.color[i := Gray]);
      assert i in Whites(s) && i !in Whites(s1);
      ReachesSelf(steps, i);
      VisitAllKeeps(steps, i, steps[i].depends, s1);
      var s2 := VisitAll(steps, steps[i].depends, s1);
      EmitKeeps(steps, i, s1, s2);
    }
  }

  /** Emitting `i` after its dependencies keeps the state consistent. */
  lemma EmitKeeps(steps: seq<PlannedStep>, i: nat, s1: Search, s2: Search)
    requires Consistent(steps, s1) && i < |steps| && s1.color[i] == Gray
    requires CallersReach(steps, s1, i)
    requires Consistent(steps, s2) && Extends(s1, s2)
    requires forall d: nat :: Edge(steps, i, d) ==> s2.color[d] != White
    ensures Consistent(steps, Search(s2.color[i := Black], s2.order + [i]))
  {
    var order := s2.order + [i];
    assert order[..|s2.order|] == s2.order;
    forall p, d | 0 <= p < |order| && Edge(steps, order[p], d)
      ensures d in order[..p] || Reaches(steps, d, order[p])
    {
      if p < |s2.order| {
        assert order[..p] == s2.order[..p];
      }
    }
  }

  lemma {:induction false} VisitAllKeeps(steps: seq<PlannedStep>, i: nat, names: seq<string>, s: Search)
    requires Consistent(steps, s) && i < |steps| && s.color[i] == Gray
    requires CallersReach(steps, s, i)
    requires forall name :: name in names ==> name in steps[i].depends
    ensures var r := VisitAll(steps, names, s);
      && Consistent(steps, r) && Extends(s, r)
      && forall name :: name in names ==>
           var d := LastIndex(steps, name); d.Some? ==> r.color[d.value] != White
    decreases Whites(s), 1 + |names|
  {
    if names != [] {
      var d := LastIndex(steps, names[0]);
      var s1 := if d.Some? then Visit(steps, d.value, s) else s;
      if d.Some? {
        assert Edge(steps, i, d.value);
        forall g | 0 <= g < |s.color| && s.color[g] == Gray
          ensures Reaches(steps, g, d.value)
        {
          ReachesEdge(steps, g, i, d.value);
        }
        VisitKeeps(steps, d.value, s);
      }
      VisitAllKeeps(steps, i, names[1..], s1);
    }
  }

  lemma {:induction false} VisitFromKeeps(steps: seq<PlannedStep>, i: nat, s: Search)
    requires Consistent(steps, s) && i <= |steps|
    requires forall j :: 0 <= j < |steps| ==> s.color[j] != Gray
    requires forall j :: 0 <= j < i ==> s.color[j] == Black
    ensures var r := VisitFrom(steps, i, s);
      Consistent(steps, r) && forall j :: 0 <= j < |steps| ==> r.color[j] == Black
    decreases |steps| - i
  {
    if i < |steps| {
      VisitKeeps(steps, i, s);
      VisitFromKeeps(steps, i + 1, if s.color[i] == White then Visit(steps, i, s) else s);
    }
  }

  /** Every input position is emitted exactly once, and only edges on a cycle are ever violated. */
  lemma OrderIsDependencyOrder(steps: seq<PlannedStep>)
    ensures var order := Order(steps);
      && NoDup(order)
      && (forall j :: j in order <==> 0 <= j < |steps|)
      && (forall i, d :: Edge(steps, i, d) ==> Precedes(order, d, i) || Reaches(steps, d, i))
  {
    VisitFromKeeps(steps, 0, Start(|steps|));
    var order := Order(steps);
    forall i, d | Edge(steps, i, d)
      ensures Precedes(order, d, i) || Reaches(steps, d, i)
    {
      assert i in order;
      var q :| 0 <= q < |order| && order[q] == i;
      if d in order[..q] {
        var p :| 0 <= p < q && order[..q][p] == d;
        assert order[p] == d;
      }
    }
  }

  /** Without cycles every step runs after all its dependencies. */
  lemma AcyclicPlanFullyOrdered(steps: seq<PlannedStep>)
    requires forall i, d :: Edge(steps, i, d) ==> !Reaches(steps, d, i)
    ensures forall i, d :: Edge(steps, i, d) ==> Precedes(Order(steps), d, i)
  {
    OrderIsDependencyOrder(steps);
  }

  // ----- when nothing moves -----

  function Identity(n: nat): (s: seq<nat>) {
    seq(n, k => k)
  }

  /** A named dependency is still unvisited. */
  ghost predicate SomeWhite(steps: seq<PlannedStep>, names: seq<string>, s: Search)
    requires |s.color| == |steps|
  {
    exists name :: name in names && LastIndex(steps, name).Some?
                   && s.color[LastIndex(steps, name).value] == White
  }

  lemma {:induction false} VisitEmits(steps: seq<PlannedStep>, i: nat, s: Search)
    requires |s.color| == |steps| && i < |steps|
    ensures var r := Visit(steps, i, s);
      && s.order <= r.order
      && (s.color[i] == White ==> |r.order| > |s.order| && r.order[|r.order| - 1] == i)
    decreases Whites(s), 0
  {
    if s.color[i] == White {
      var s1 := s.(color := s.color[i := Gray]);
      assert i in Whites(s) && i !in Whites(s1);
      VisitAllEmits(steps, steps[i].depends, s1);
    }
  }

  /** Trying the dependencies changes nothing exactly when none of them is white. */
  lemma {:induction false} VisitAllEmits(steps: seq<PlannedStep>, names: seq<string>, s: Search)
    requires |s.color| == |steps|
    ensures var r := VisitAll(steps, names, s);
      && s.order <= r.order
      && (if SomeWhite(steps, names, s) then |r.order| > |s.order| else r == s)
    decreases Whites(s), 1 + |names|
  {
    if names != [] {
      var d := LastIndex(steps, names[0]);
      var s1 := if d.Some? then Visit(steps, d.value, s) else s;
      if d.Some? {
        VisitEmits(steps, d.value, s);
      }
      VisitAllEmits(steps, names[1..], s1);
      assert forall name :: name in names <==> name == names[0] || name in names[1..];
    }
  }

  lemma {:induction false} VisitFromEmits(steps: seq<PlannedStep>, i: nat, s: Search)
    requires |s.color| == |steps| && i <= |steps|
    ensures s.order <= VisitFrom(steps, i, s).order
    decreases |steps| - i
  {
    if i < |steps| {
      VisitEmits(steps, i, s);
      VisitFromEmits(steps, i + 1, if s.color[i] == White then Visit(steps, i, s) else s);
    }
  }

  ghost predicate PointsBack(steps: seq<PlannedStep>, i: nat) {
    forall d: nat :: Edge(steps, i, d) ==> d <= i
  }

  lemma PointsBackIff(steps: seq<PlannedStep>, i: nat, s: Search)
    requires i < |steps| && |s.color| == |steps|
    requires forall j :: 0 <= j < |steps| ==> (s.color[j] == White <==> j > i)
    ensures PointsBack(steps, i) <==> !SomeWhite(steps, steps[i].depends, s)
  {
    if PointsBack(steps, i) {
      forall name | name in steps[i].depends && LastIndex(steps, name).Some?
        ensures s.color[LastIndex(steps, name).value] != White
      {
        assert Edge(steps, i, LastIndex(steps, name).value);
      }
    }
  }

  lemma {:induction false} UnchangedFrom(steps: seq<PlannedStep>, i: nat, s: Search)
    requires i <= |steps| && |s.color| == |steps| && s.order == Identity(i)
    requires forall j :: 0 <= j < |steps| ==> s.color[j] == if j < i then Black else White
    ensures VisitFrom(steps, i, s).order == Identity(|steps|)
       <==> forall k :: i <= k < |steps| ==> PointsBack(steps, k)
    decreases |steps| - i
  {
    if i < |steps| {
      var s1 := s.(color := s.color[i := Gray]);
      var r := Visit(steps, i, s);
      VisitAllEmits(steps, steps[i].depends, s1);
      PointsBackIff(steps, i, s1);
      if PointsBack(steps, i) {
        assert r == Search(s.color[i := Black], s.order + [i]);
        assert r.order == Identity(i + 1);
        UnchangedFrom(steps, i + 1, r);
      } else {
        VisitFromEmits(steps, i + 1, r);
        var order := VisitFrom(steps, i, s).order;
        assert r.order[|r.order| - 1] == i && |r.order| - 1 > i;
        assert order[|r.order| - 1] == i;
      }
    }
  }

  /** The plan comes back unchanged exactly when every dependency already stands before its step. */
  lemma OrderUnchangedIff(steps: seq<PlannedStep>)
    ensures Order(steps) == Identity(|steps|)
       <==> forall i: nat, d: nat :: Edge(steps, i, d) ==> d <= i
  {
    UnchangedFrom(steps, 0, Start(|steps|));
    if forall k :: 0 <= k < |steps| ==> PointsBack(steps, k) {
      forall i: nat, d: nat | Edge(steps, i, d) ensures d <= i {
        assert PointsBack(steps, i);
      }
    }
  }

  function Named(name: string, depends: seq<string>): PlannedStep {
    PlannedStep(name, map[], "", false, depends, "", "")
  }

  /**
   * The sort is not stable for independent steps, although its comment says so: in a plan a, b, c
   * where only a depends on c, the unrelated steps b and c swap places.
   */
  lemma IndependentStepsCanSwap()
    ensures var steps := [Named("a", ["c"]), Named("b", []), Named("c", [])];
      && !Reaches(steps, 1, 2) && !Reaches(steps, 2, 1)
      && Order(steps) == [2, 0, 1]
  {
    var steps := [Named("a", ["c"]), Named("b", []), Named("c", [])];
    var s0 := Start(3);
    var s1 := s0.(color := s0.color[0 := Gray]);
    assert LastIndex(steps, "c") == Some(2);
    var s2 := Visit(steps, 2, s1);
    assert VisitAll(steps, [], s1.(color := s1.color[2 := Gray])) == s1.(color := s1.color[2 := Gray]);
    assert s2 == Search([Gray, White, Black], [2]);
    assert VisitAll(steps, ["c"], s1) == VisitAll(steps, [], s2) == s2;
    var s3 := Visit(steps, 0, s0);
    assert s3 == Search([Black, White, Black], [2, 0]);
    var s4 := Visit(steps, 1, s3);
    assert VisitAll(steps, [], s3.(color := s3.color[1 := Gray])) == s3.(color := s3.color[1 := Gray]);
    assert s4 == Search([Black, Black, Black], [2, 0, 1]);
    assert VisitFrom(steps, 3, s4) == s4;
    assert VisitFrom(steps, 2, s4) == s4;
    assert VisitFrom(steps, 1, s3) == s4;
    assert VisitFrom(steps, 0, s0) == s4;
    NoEdgeNoReach(steps, 1, 2);
    NoEdgeNoReach(steps, 2, 1);
  }

  lemma NoEdgeNoReach(steps: seq<PlannedStep>, a: nat, b: nat)
    requires a < |steps| && steps[a].depends == [] && a != b
    ensures !Reaches(steps, a, b)
  {
    forall path | IsPath(steps, path) && path[0] == a ensures |path| == 1 {
      assert |path| > 1 ==> Edge(steps, path[0], path[1]);
    }
  }

  // ----- the imperative sort -----

  /** The list `sorted` holds the steps at the positions `order`, in that order. */
  ghost predicate ReadsOff(steps: seq<PlannedStep>, order: seq<nat>, sorted: seq<PlannedStep>) {
    && |sorted| == |order|
    && (forall k :: 0 <= k < |order| ==> order[k] < |steps| && sorted[k] == steps[order[k]])
  }

  function Without<T>(s: seq<T>, p: nat): (r: seq<T>)
    requires p < |s|
    ensures |r| == |s| - 1
    ensures forall k :: 0 <= k < |r| ==> r[k] == if k < p then s[k] else s[k + 1]
  {
    s[..p] + s[p + 1..]
  }

  lemma WithoutBag<T>(s: seq<T>, p: nat)
    requires p < |s|
    ensures multiset(s) == multiset(Without(s, p)) + multiset{s[p]}
  {
    assert s == s[..p] + [s[p]] + s[p + 1..];
  }

  /** Without the last position, the rest is read off the plan without its last step. */
  lemma WithoutLast(steps: seq<PlannedStep>, order: seq<nat>, sorted: seq<PlannedStep>, p: nat)
    requires NoDup(order) && ReadsOff(steps, order, sorted) && steps != []
    requires forall j :: 0 <= j < |steps| ==> j in order
    requires p < |order| && order[p] == |steps| - 1
    ensures var rest, front := Without(order, p), steps[..|steps| - 1];
      && NoDup(rest) && ReadsOff(front, rest, Without(sorted, p))
      && forall j :: 0 <= j < |front| ==> j in rest
  {
    var rest, front := Without(order, p), steps[..|steps| - 1];
    forall k | 0 <= k < |rest| ensures rest[k] < |front| {
      assert order[if k < p then k else k + 1] != order[p];
    }
    forall j | 0 <= j < |front| ensures j in rest {
      assert j in order;
      var q :| 0 <= q < |order| && order[q] == j;
      assert rest[if q < p then q else q - 1] == j;
    }
  }

  /** A list read off a permutation of the positions holds the same steps, each as often. */
  lemma {:induction false} ReadOffBag(steps: seq<PlannedStep>, order: seq<nat>, sorted: seq<PlannedStep>)
    requires NoDup(order) && ReadsOff(steps, order, sorted)
    requires forall j :: 0 <= j < |steps| ==> j in order
    ensures |sorted| == |steps| && multiset(sorted) == multiset(steps)
    decreases |steps|
  {
    if order == [] {
      assert 0 !in order;
    } else {
      assert order[0] < |steps|;
      var last := |steps| - 1;
      assert last in order;
      var p :| 0 <= p < |order| && order[p] == last;
      WithoutLast(steps, order, sorted, p);
      ReadOffBag(steps[..last], Without(order, p), Without(sorted, p));
      WithoutBag(sorted, p);
      WithoutBag(steps, last);
      assert Without(steps, last) == steps[..last];
    }
  }

  /** A step that an unviolated edge puts first also stands first in the list read off. */
  lemma ReadOffPrecedes(steps: seq<PlannedStep>, order: seq<nat>, sorted: seq<PlannedStep>, d: nat, i: nat)
    requires ReadsOff(steps, order, sorted) && Precedes(order, d, i) && d < |steps| && i < |steps|
    ensures exists p, q :: 0 <= p < q < |sorted| && sorted[p] == steps[d] && sorted[q] == steps[i]
  {
    var p, q :| 0 <= p < q < |order| && order[p] == d && order[q] == i;
    assert sorted[p] == steps[d] && sorted[q] == steps[i];
  }

  /** With no step twice in the plan, the list read off is the plan exactly when the positions are in order. */
  lemma ReadOffUnchangedIff(steps: seq<PlannedStep>, order: seq<nat>, sorted: seq<PlannedStep>)
    requires ReadsOff(steps, order, sorted) && |order| == |steps|
    ensures order == Identity(|steps|) ==> sorted == steps
    ensures NoDup(steps) && sorted == steps ==> order == Identity(|steps|)
  {
    if NoDup(steps) && sorted == steps {
      forall k | 0 <= k < |order| ensures order[k] == k {
        assert steps[order[k]] == steps[k];
      }
    }
  }

  /** With a step twice in the plan a move can leave no trace: here the two steps change places. */
  lemma EqualStepsHideMove()
    ensures var steps := [Named("a", ["a"]), Named("a", ["a"])];
      && Edge(steps, 0, 1)
      && Order(steps) == [1, 0] && ReadsOff(steps, [1, 0], steps)
  {
    var steps := [Named("a", ["a"]), Named("a", ["a"])];
    assert LastIndex(steps, "a") == Some(1);
    assert "a" in steps[0].depends;
    var s0 := Start(2);
    var s1 := s0.(color := s0.color[0 := Gray]);
    var s2 := s1.(color := s1.color[1 := Gray]);
    assert Visit(steps, 1, s2) == s2;
    assert VisitAll(steps, ["a"], s2) == VisitAll(steps, [], s2) == s2;
    var s3 := Visit(steps, 1, s1);
    assert s3 == Search([Gray, Black], [1]);
    assert VisitAll(steps, ["a"], s1) == VisitAll(steps, [], s3) == s3;
    var s4 := Visit(steps, 0, s0);
    assert s4 == Search([Black, Black], [1, 0]);
    assert VisitFrom(steps, 2, s4) == s4;
    assert VisitFrom(steps, 1, s4) == s4;
    assert VisitFrom(steps, 0, s0) == s4;
  }

  lemma VisitAllAt(steps: seq<PlannedStep>, names: seq<string>, k: nat, s: Search)
    requires |s.color| == |steps| && k < |names|
    ensures var d := LastIndex(steps, names[k]);
      VisitAll(steps, names[k..], s) == VisitAll(steps, names[k + 1..], if d.Some? then Visit(steps, d.value, s) else s)
  {
    assert names[k..][0] == names[k] && names[k..][1..] == names[k + 1..];
  }

  class Sorter {
    const steps: seq<PlannedStep>
    const nameIndex: map<string, nat>
    const state: array<Color>
    var sorted: seq<PlannedStep>
    ghost var order: seq<nat>

    ghost predicate Valid()
      reads this, state
    {
      && state.Length == |steps|
      && (forall name :: name in nameIndex <==> LastIndex(steps, name).Some?)
      && (forall name :: name in nameIndex ==> LastIndex(steps, name) == Some(nameIndex[name]))
      && ReadsOff(steps, order, sorted)
    }

    ghost function Abs(): Search
      reads this, state
    {
      Search(state[..], order)
    }

    constructor (steps: seq<PlannedStep>)
      ensures Valid() && fresh(state) && this.steps == steps && Abs() == Start(|steps|)
    {
      var index: map<string, nat> := map[];
      for k := 0 to |steps|
        invariant forall name :: name in index <==> LastIndex(steps[..k], name).Some?
        invariant forall name :: name in index ==> LastIndex(steps[..k], name) == Some(index[name])
      {
        assert steps[..k + 1][..k] == steps[..k];
        index := index[steps[k].toolName := k];
      }
      assert steps[..|steps|] == steps;
      this.steps := steps;
      nameIndex := index;
      state := new Color[|steps|](_ => White);
      sorted := [];
      order := [];
      new;
      assert Abs().color == Start(|steps|).color;
    }

    method VisitStep(i: nat)
      requires Valid() && i < |steps|
      modifies this, state
      ensures Valid() && Abs() == Visit(steps, i, old(Abs()))
      decreases Whites(Abs()), 0
    {
      ghost var s := Abs();
      if state[i] == Black {
        return;
      }
      if state[i] == Gray {
        return;
      }
      state[i] := Gray;
      ghost var s1 := Abs();
      assert s1 == s.(color := s.color[i := Gray]);
      assert i in Whites(s) && i !in Whites(s1);
      VisitDepends(steps[i].depends);
      Emit(i);
    }

    /** The loop over the dependencies inside the closure. */
    method VisitDepends(depends: seq<string>)
      requires Valid()
      modifies this, state
      ensures Valid() && Abs() == VisitAll(steps, depends, old(Abs()))
      decreases Whites(Abs()), 1
    {
      ghost var s := Abs();
      var k := 0;
      while k < |depends|
        invariant 0 <= k <= |depends| && Valid()
        invariant Whites(Abs()) <= Whites(s)
        invariant VisitAll(steps, depends[k..], Abs()) == VisitAll(steps, depends, s)
      {
        VisitAllAt(steps, depends, k, Abs());
        if depends[k] in nameIndex {
          VisitStep(nameIndex[depends[k]]);
        }
        k := k + 1;
      }
    }

    method Emit(i: nat)
      requires Valid() && i < |steps|
      modifies this, state
      ensures Valid() && Abs() == Search(old(Abs()).color[i := Black], old(Abs()).order + [i])
    {
      state[i] := Black;
      sorted := sorted + [steps[i]];
      order := order + [i];
      assert state[..] == old(state[..])[i := Black];
    }
  }

  /** Every step comes back as often as it was given, after its dependencies unless they depend back on it. */
  method SortStepsByDependencies(steps: seq<PlannedStep>) returns (sorted: seq<PlannedStep>)
    ensures multiset(sorted) == multiset(steps)
    ensures |sorted| == |steps| == |Order(steps)|
    ensures forall k :: 0 <= k < |steps| ==> Order(steps)[k] < |steps| && sorted[k] == steps[Order(steps)[k]]
    ensures forall i: nat, d: nat :: Edge(steps, i, d) && !Reaches(steps, d, i) ==>
      exists p, q :: 0 <= p < q < |sorted| && sorted[p] == steps[d] && sorted[q] == steps[i]
    ensures (forall i: nat, d: nat :: Edge(steps, i, d) ==> d <= i) ==> sorted == steps
    ensures NoDup(steps) && sorted == steps ==> forall i: nat, d: nat :: Edge(steps, i, d) ==> d <= i
  {
    sorted := ReadOffOrder(steps);
    OrderIsDependencyOrder(steps);
    ReadOffBag(steps, Order(steps), sorted);
    OrderUnchangedIff(steps);
    ReadOffUnchangedIff(steps, Order(steps), sorted);
    forall i: nat, d: nat | Edge(steps, i, d) && !Reaches(steps, d, i)
      ensures exists p, q :: 0 <= p < q < |sorted| && sorted[p] == steps[d] && sorted[q] == steps[i]
    {
      ReadOffPrecedes(steps, Order(steps), sorted, d, i);
    }
  }

  /** The body of the sort: the search over the positions. */
  method ReadOffOrder(steps: seq<PlannedStep>) returns (sorted: seq<PlannedStep>)
    ensures ReadsOff(steps, Order(steps), sorted)
  {
    if |steps| <= 1 {
      OrderUnchangedIff(steps);
      return steps;
    }
    var sorter := new Sorter(steps);
    var i := 0;
    while i < |steps|
      invariant 0 <= i <= |steps| && sorter.Valid() && sorter.steps == steps
      invariant fresh(sorter) && fresh(sorter.state)
      invariant VisitFrom(steps, i, sorter.Abs()).order == Order(steps)
    {
      if sorter.state[i] == White {
        sorter.VisitStep(i);
      }
      i := i + 1;
    }
    return sorter.sorted;
  }
}
