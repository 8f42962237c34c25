/**
 * Which of two steps the dependency sort emits first (internal/decision/engine.go, SortStepsByDependencies).
 *
 * A visit emits exactly the steps that it can reach over unvisited ones.  So the plan comes out in blocks:
 * each outer visit emits the steps that no earlier step reaches, and inside a visit each dependency emits
 * what the dependencies named before it do not reach.
 */
module StepBlocks {
  import opened Std
  import opened Plan
  import opened StepOrder

  // ----- a visit emits what it reaches over white steps -----

  /** A path from `a` to `b` inside `w`. */
  ghost predicate ReachesWithin(steps: seq<PlannedStep>, w: set<nat>, a: nat, b: nat) {
    exists path :: PathWithin(steps, w, path) && path[0] == a && path[|path| - 1] == b
  }

  ghost predicate PathWithin(steps: seq<PlannedStep>, w: set<nat>, path: seq<nat>) {
    IsPath(steps, path) && forall k :: 0 <= k < |path| ==> path[k] in w
  }

  lemma ReachesSelfWithin(steps: seq<PlannedStep>, w: set<nat>, a: nat)
    requires a in w
    ensures ReachesWithin(steps, w, a, a)
  {
    assert PathWithin(steps, w, [a]);
  }

  lemma ReachesMore(steps: seq<PlannedStep>, w: set<nat>, v: set<nat>, a: nat, b: nat)
    requires ReachesWithin(steps, w, a, b) && w <= v
    ensures ReachesWithin(steps, v, a, b) && Reaches(steps, a, b)
  {
    var path :| PathWithin(steps, w, path) && path[0] == a && path[|path| - 1] == b;
    assert PathWithin(steps, v, path);
  }

  lemma ReachesFromCaller(steps: seq<PlannedStep>, w: set<nat>, i: nat, d: nat, b: nat)
    requires Edge(steps, i, d) && i in w && ReachesWithin(steps, w, d, b)
    ensures ReachesWithin(steps, w, i, b)
  {
    var path :| PathWithin(steps, w, path) && path[0] == d && path[|path| - 1] == b;
    var longer := [i] + path;
    assert PathWithin(steps, w, longer);
    assert longer[0] == i && longer[|longer| - 1] == b;
  }

  ghost predicate NewlyVisited(s: Search, r: Search, j: nat) {
    j in Whites(s) && j !in Whites(r)
  }

  lemma {:induction false} VisitOnlyReached(steps: seq<PlannedStep>, i: nat, s: Search, j: nat)
    requires |s.color| == |steps| && i < |steps| && NewlyVisited(s, Visit(steps, i, s), j)
    ensures i in Whites(s) && ReachesWithin(steps, Whites(s), i, j)
    decreases Whites(s), 0
  {
    var s1 := s.(color := s.color[i := Gray]);
    assert i in Whites(s) && i !in Whites(s1);
    if j == i {
      ReachesSelfWithin(steps, Whites(s), i);
    } else {
      var d := VisitAllOnlyReached(steps, steps[i].depends, s1, j);
      ReachesMore(steps, Whites(s1), Whites(s), d, j);
      ReachesFromCaller(steps, Whites(s), i, d, j);
    }
  }

  lemma {:induction false} VisitAllOnlyReached(steps: seq<PlannedStep>, names: seq<string>, s: Search, j: nat)
    returns (d: nat)
    requires |s.color| == |steps| && NewlyVisited(s, VisitAll(steps, names, s), j)
    ensures exists name :: name in names && LastIndex(steps, name) == Some(d)
    ensures ReachesWithin(steps, Whites(s), d, j)
    decreases Whites(s), 1 + |names|
  {
    var first := LastIndex(steps, names[0]);
    var s1 := if first.Some? then Visit(steps, first.value, s) else s;
    if first.Some? && NewlyVisited(s, s1, j) {
      VisitOnlyReached(steps, first.value, s, j);
      d := first.value;
    } else {
      d := VisitAllOnlyReached(steps, names[1..], s1, j);
      ReachesMore(steps, Whites(s1), Whites(s), d, j);
    }
  }

  /** What has been visited on the way has had its dependencies tried. */
  ghost predicate ClosedOver(steps: seq<PlannedStep>, s: Search, r: Search) {
    forall j: nat, d: nat :: NewlyVisited(s, r, j) && Edge(steps, j, d) ==> d !in Whites(r)
  }

  lemma {:induction false} VisitCloses(steps: seq<PlannedStep>, i: nat, s: Search)
    requires |s.color| == |steps| && i < |steps|
    ensures ClosedOver(steps, s, Visit(steps, i, s)) && i !in Whites(Visit(steps, i, s))
    decreases Whites(s), 0
  {
    if s.color[i] == White {
      var s1 := s.(color := s.color[i := Gray]);
      assert i in Whites(s) && i !in Whites(s1);
      VisitAllCloses(steps, steps[i].depends, s1);
      var s2, r := VisitAll(steps, steps[i].depends, s1), Visit(steps, i, s);
      assert Whites(r) <= Whites(s2);
      forall j: nat, d: nat | NewlyVisited(s, r, j) && Edge(steps, j, d) ensures d !in Whites(r) {
        if j != i { assert NewlyVisited(s1, s2, j); }
      }
    }
  }

  lemma {:induction false} VisitAllCloses(steps: seq<PlannedStep>, names: seq<string>, s: Search)
    requires |s.color| == |steps|
    ensures ClosedOver(steps, s, VisitAll(steps, names, s))
    ensures forall name :: name in names && LastIndex(steps, name).Some? ==>
      LastIndex(steps, name).value !in Whites(VisitAll(steps, names, s))
    decreases Whites(s), 1 + |names|
  {
    if names != [] {
      var first := LastIndex(steps, names[0]);
      var s1 := if first.Some? then Visit(steps, first.value, s) else s;
      if first.Some? { VisitCloses(steps, first.value, s); }
      VisitAllCloses(steps, names[1..], s1);
      var r := VisitAll(steps, names, s);
      forall j: nat, d: nat | NewlyVisited(s, r, j) && Edge(steps, j, d) ensures d !in Whites(r) {
        if j in Whites(s1) { assert NewlyVisited(s1, r, j); } else { assert NewlyVisited(s, s1, j); }
      }
    }
  }

  lemma {:induction false} ClosedAlongPath(steps: seq<PlannedStep>, s: Search, r: Search, path: seq<nat>)
    requires ClosedOver(steps, s, r) && PathWithin(steps, Whites(s), path) && path[0] !in Whites(r)
    ensures path[|path| - 1] !in Whites(r)
  {
    if |path| > 1 {
      assert NewlyVisited(s, r, path[0]) && Edge(steps, path[0], path[1]);
      assert PathWithin(steps, Whites(s), path[1..]) by {
        assert forall k :: 0 <= k < |path| - 2 ==> Edge(steps, path[1..][k], path[1..][k + 1]);
      }
      ClosedAlongPath(steps, s, r, path[1..]);
    }
  }

  /** A visit takes exactly the steps that it reaches over steps not yet visited. */
  lemma VisitTakesReached(steps: seq<PlannedStep>, i: nat, s: Search, j: nat)
    requires |s.color| == |steps| && i < |steps|
    ensures NewlyVisited(s, Visit(steps, i, s), j) <==> ReachesWithin(steps, Whites(s), i, j)
  {
    if NewlyVisited(s, Visit(steps, i, s), j) {
      VisitOnlyReached(steps, i, s, j);
    }
    if ReachesWithin(steps, Whites(s), i, j) {
      var path :| PathWithin(steps, Whites(s), path) && path[0] == i && path[|path| - 1] == j;
      VisitCloses(steps, i, s);
      ClosedAlongPath(steps, s, Visit(steps, i, s), path);
    }
  }

  // ----- blocks of the whole plan -----

  /** The search after the outer loop has tried the first `m` steps. */
  function Upto(steps: seq<PlannedStep>, m: nat): (s: Search)
    requires m <= |steps|
    ensures |s.color| == |steps|
  {
    if m == 0 then Start(|steps|)
    else
      var s := Upto(steps, m - 1);
      if s.color[m - 1] == White then Visit(steps, m - 1, s) else s
  }

  lemma {:induction false} UptoIsOnTheWay(steps: seq<PlannedStep>, m: nat)
    requires m <= |steps|
    ensures VisitFrom(steps, m, Upto(steps, m)).order == Order(steps)
  {
    if m > 0 { UptoIsOnTheWay(steps, m - 1); }
  }

  /** Some step before `m` reaches `j`. */
  ghost predicate ReachedBefore(steps: seq<PlannedStep>, m: nat, j: nat) {
    exists r: nat :: r < m && Reaches(steps, r, j)
  }

  ghost predicate BlackClosed(steps: seq<PlannedStep>, s: Search) {
    forall j: nat, d: nat :: j in s.order && Edge(steps, j, d) ==> d in s.order
  }

  /** Between outer visits nothing is under visit, and the emitted steps are closed under dependencies. */
  ghost predicate Settled(steps: seq<PlannedStep>, s: Search) {
    Consistent(steps, s) && BlackClosed(steps, s) && forall j :: 0 <= j < |steps| ==> s.color[j] != Gray
  }

  lemma SettledEmits(steps: seq<PlannedStep>, s: Search, j: nat)
    requires Settled(steps, s)
    ensures j in s.order <==> j < |steps| && j !in Whites(s)
  {
  }

  lemma OuterVisitSettles(steps: seq<PlannedStep>, i: nat, s: Search)
    requires Settled(steps, s) && i < |steps|
    ensures Settled(steps, Visit(steps, i, s)) && i in Visit(steps, i, s).order
  {
    var r := Visit(steps, i, s);
    VisitKeeps(steps, i, s);
    VisitCloses(steps, i, s);
    forall j: nat, d: nat | j in r.order && Edge(steps, j, d) ensures d in r.order {
      SettledEmits(steps, s, j);
      if j in s.order {
        assert d in s.order;
      } else {
        assert NewlyVisited(s, r, j) && d !in Whites(r);
      }
    }
  }

  lemma {:induction false} UptoInvariant(steps: seq<PlannedStep>, m: nat)
    requires m <= |steps|
    ensures Settled(steps, Upto(steps, m))
    ensures forall j: nat :: j < m ==> j in Upto(steps, m).order
  {
    if m > 0 {
      UptoInvariant(steps, m - 1);
      var s := Upto(steps, m - 1);
      VisitKeeps(steps, m - 1, s);
      OuterVisitSettles(steps, m - 1, s);
    }
  }

  lemma {:induction false} UptoOnlyReached(steps: seq<PlannedStep>, m: nat, j: nat)
    requires m <= |steps| && j in Upto(steps, m).order
    ensures ReachedBefore(steps, m, j)
  {
    UptoInvariant(steps, m);
    if m > 0 {
      UptoInvariant(steps, m - 1);
      var s := Upto(steps, m - 1);
      SettledEmits(steps, s, j);
      SettledEmits(steps, Upto(steps, m), j);
      if j in s.order {
        UptoOnlyReached(steps, m - 1, j);
      } else {
        VisitOnlyReached(steps, m - 1, s, j);
        ReachesMore(steps, Whites(s), Whites(s), m - 1, j);
      }
    }
  }

  lemma {:induction false} BlackAlongPath(steps: seq<PlannedStep>, s: Search, path: seq<nat>)
    requires BlackClosed(steps, s) && IsPath(steps, path) && path[0] in s.order
    ensures path[|path| - 1] in s.order
  {
    if |path| > 1 {
      assert Edge(steps, path[0], path[1]);
      assert IsPath(steps, path[1..]) by {
        assert forall k :: 0 <= k < |path| - 2 ==> Edge(steps, path[1..][k], path[1..][k + 1]);
      }
      BlackAlongPath(steps, s, path[1..]);
    }
  }

  /** After the first `m` outer visits exactly the steps that one of these `m` steps reaches are out. */
  lemma EmittedUpto(steps: seq<PlannedStep>, m: nat, j: nat)
    requires m <= |steps|
    ensures j in Upto(steps, m).order <==> ReachedBefore(steps, m, j)
  {
    UptoInvariant(steps, m);
    if j in Upto(steps, m).order {
      UptoOnlyReached(steps, m, j);
    }
    if ReachedBefore(steps, m, j) {
      var r: nat :| r < m && Reaches(steps, r, j);
      var path :| IsPath(steps, path) && path[0] == r && path[|path| - 1] == j;
      BlackAlongPath(steps, Upto(steps, m), path);
    }
  }

  /** The first step that reaches `j`, searched from `r` on; `j` reaches itself. */
  ghost function LeastFrom(steps: seq<PlannedStep>, r: nat, j: nat): nat
    decreases j - r
  {
    if r >= j || Reaches(steps, r, j) then r else LeastFrom(steps, r + 1, j)
  }

  ghost function Least(steps: seq<PlannedStep>, j: nat): nat {
    LeastFrom(steps, 0, j)
  }

  lemma {:induction false} LeastIs(steps: seq<PlannedStep>, r: nat, j: nat)
    requires r <= j
    ensures r <= LeastFrom(steps, r, j) <= j && Reaches(steps, LeastFrom(steps, r, j), j)
    ensures forall q: nat :: r <= q < LeastFrom(steps, r, j) ==> !Reaches(steps, q, j)
    decreases j - r
  {
    if r == j {
      ReachesSelf(steps, j);
    } else if !Reaches(steps, r, j) {
      LeastIs(steps, r + 1, j);
    }
  }

  lemma PrefixDecides(order: seq<nat>, prefix: seq<nat>, i: nat, j: nat)
    requires prefix <= order && i in prefix && j !in prefix && j in order
    ensures Precedes(order, i, j)
  {
    var p :| 0 <= p < |prefix| && prefix[p] == i;
    var q :| 0 <= q < |order| && order[q] == j;
    assert order[p] == i;
    assert forall k :: 0 <= k < |prefix| ==> prefix[k] in prefix && order[k] == prefix[k];
  }

  /** The step whose block comes first comes first. */
  lemma EarlierBlockFirst(steps: seq<PlannedStep>, i: nat, j: nat)
    requires i < |steps| && j < |steps| && Least(steps, i) < Least(steps, j)
    ensures Precedes(Order(steps), i, j)
  {
    LeastIs(steps, 0, i);
    LeastIs(steps, 0, j);
    var m := Least(steps, j);
    EmittedUpto(steps, m, i);
    EmittedUpto(steps, m, j);
    UptoIsOnTheWay(steps, m);
    VisitFromEmits(steps, m, Upto(steps, m));
    OrderIsDependencyOrder(steps);
    PrefixDecides(Order(steps), Upto(steps, m).order, i, j);
  }

  lemma NotBothFirst(order: seq<nat>, i: nat, j: nat)
    requires NoDup(order) && Precedes(order, i, j)
    ensures !Precedes(order, j, i)
  {
    var p, q :| 0 <= p < q < |order| && order[p] == i && order[q] == j;
    forall p', q' | 0 <= p' < q' < |order| && order[p'] == j ensures order[q'] != i {
      assert p' == q;
    }
  }

  /**
   * Two steps that different first steps reach come out in the order of those first steps.  In particular
   * an independent later step overtakes an earlier one exactly when something before all that depends on
   * the earlier one depends on the later one.
   */
  lemma BlocksDecideOrder(steps: seq<PlannedStep>, i: nat, j: nat)
    requires i < |steps| && j < |steps| && Least(steps, i) != Least(steps, j)
    ensures Precedes(Order(steps), i, j) <==> Least(steps, i) < Least(steps, j)
  {
    OrderIsDependencyOrder(steps);
    if Least(steps, i) < Least(steps, j) {
      EarlierBlockFirst(steps, i, j);
    } else {
      EarlierBlockFirst(steps, j, i);
      NotBothFirst(Order(steps), j, i);
    }
  }

  // ----- the order of any two steps, read off the dependency lists -----

  /** What `d` reaches inside `w`. */
  ghost function ReachOf(steps: seq<PlannedStep>, w: set<nat>, d: Option<nat>): set<nat> {
    set z | z in w && d.Some? && ReachesWithin(steps, w, d.value, z)
  }

  /** In a visit of `v` over `w`: `v` comes last, and otherwise its dependencies decide. */
  ghost predicate Before(steps: seq<PlannedStep>, w: set<nat>, v: nat, x: nat, y: nat)
    requires v in w && v < |steps|
    decreases w, 0
  {
    x != v && (y == v || BeforeAmong(steps, steps[v].depends, w - {v}, x, y))
  }

  /** The first dependency that reaches one of the two decides, by a visit of its own if it reaches both. */
  ghost predicate BeforeAmong(steps: seq<PlannedStep>, names: seq<string>, w: set<nat>, x: nat, y: nat)
    decreases w, 1 + |names|
  {
    names != [] &&
    var d := LastIndex(steps, names[0]);
    var reach := ReachOf(steps, w, d);
    if d.Some? && d.value in w && x in reach && y in reach then Before(steps, w, d.value, x, y)
    else x in reach || (y !in reach && BeforeAmong(steps, names[1..], w - reach, x, y))
  }

  lemma NewlyEmitted(steps: seq<PlannedStep>, s: Search, r: Search, z: nat)
    requires Consistent(steps, s) && Consistent(steps, r) && Extends(s, r)
    ensures NewlyVisited(s, r, z) ==> z in r.order && z !in s.order
    ensures z in Whites(s) ==> (z in r.order <==> NewlyVisited(s, r, z))
  {
  }

  lemma SamePrecedence(order: seq<nat>, prefix: seq<nat>, x: nat, y: nat)
    requires NoDup(order) && prefix <= order && x in prefix && y in prefix && x != y
    ensures Precedes(order, x, y) <==> Precedes(prefix, x, y)
  {
    var p :| 0 <= p < |prefix| && prefix[p] == x;
    var q :| 0 <= q < |prefix| && prefix[q] == y;
    assert order[p] == x && order[q] == y;
    if p < q {
      assert Precedes(order, x, y) && Precedes(prefix, x, y);
    } else {
      assert Precedes(order, y, x) && Precedes(prefix, y, x);
      NotBothFirst(order, y, x);
      assert NoDup(prefix);
      NotBothFirst(prefix, y, x);
    }
  }

  lemma {:induction false} BeforeDecides(steps: seq<PlannedStep>, v: nat, s: Search, x: nat, y: nat)
    requires Consistent(steps, s) && v in Whites(s) && v < |steps| && CallersReach(steps, s, v)
    requires NewlyVisited(s, Visit(steps, v, s), x) && NewlyVisited(s, Visit(steps, v, s), y) && x != y
    ensures Precedes(Visit(steps, v, s).order, x, y) <==> Before(steps, Whites(s), v, x, y)
    decreases Whites(s), 0
  {
    var s1 := s.(color := s.color[v := Gray]);
    assert Whites(s1) == Whites(s) - {v};
    ReachesSelf(steps, v);
    var s2, r := VisitAll(steps, steps[v].depends, s1), Visit(steps, v, s);
    VisitKeeps(steps, v, s);
    VisitAllKeeps(steps, v, steps[v].depends, s1);
    NewlyEmitted(steps, s, r, x);
    NewlyEmitted(steps, s, r, y);
    assert s2.order <= r.order;
    if x == v {
      PrefixDecides(r.order, s2.order, y, x);
      NotBothFirst(r.order, y, x);
    } else if y == v {
      PrefixDecides(r.order, s2.order, x, y);
    } else {
      AmongDecides(steps, v, steps[v].depends, s1, x, y);
      SamePrecedence(r.order, s2.order, x, y);
    }
  }

  lemma {:induction false} AmongDecides(steps: seq<PlannedStep>, v: nat, names: seq<string>, s: Search, x: nat, y: nat)
    requires Consistent(steps, s) && v < |steps| && s.color[v] == Gray && CallersReach(steps, s, v)
    requires forall name :: name in names ==> name in steps[v].depends
    requires NewlyVisited(s, VisitAll(steps, names, s), x) && NewlyVisited(s, VisitAll(steps, names, s), y) && x != y
    ensures Precedes(VisitAll(steps, names, s).order, x, y) <==> BeforeAmong(steps, names, Whites(s), x, y)
    decreases Whites(s), 1 + |names|
  {
    var d, r := LastIndex(steps, names[0]), VisitAll(steps, names, s);
    VisitAllKeeps(steps, v, names, s);
    NewlyEmitted(steps, s, r, x);
    NewlyEmitted(steps, s, r, y);
    var s1 := AfterFirst(steps, v, names, s);
    var reach := ReachOf(steps, Whites(s), d);
    if x in reach && y in reach {
      BeforeDecides(steps, d.value, s, x, y);
      SamePrecedence(r.order, s1.order, x, y);
    } else if x in reach {
      PrefixDecides(r.order, s1.order, x, y);
    } else if y in reach {
      PrefixDecides(r.order, s1.order, y, x);
      NotBothFirst(r.order, y, x);
    } else {
      AmongDecides(steps, v, names[1..], s1, x, y);
    }
  }

  /** The state after the first dependency: what it reaches is out, everything else as before. */
  lemma AfterFirst(steps: seq<PlannedStep>, v: nat, names: seq<string>, s: Search) returns (s1: Search)
    requires Consistent(steps, s) && v < |steps| && s.color[v] == Gray && CallersReach(steps, s, v)
    requires names != [] && forall name :: name in names ==> name in steps[v].depends
    ensures var d := LastIndex(steps, names[0]); s1 == if d.Some? then Visit(steps, d.value, s) else s
    ensures LastIndex(steps, names[0]).Some? ==> CallersReach(steps, s, LastIndex(steps, names[0]).value)
    ensures |s1.color| == |steps| && VisitAll(steps, names, s) == VisitAll(steps, names[1..], s1)
    ensures Consistent(steps, s1) && s1.color[v] == Gray && CallersReach(steps, s1, v)
    ensures s1.order <= VisitAll(steps, names, s).order
    ensures Whites(s1) == Whites(s) - ReachOf(steps, Whites(s), LastIndex(steps, names[0]))
    ensures forall z :: z in ReachOf(steps, Whites(s), LastIndex(steps, names[0])) ==> z in s1.order
    ensures forall z :: z in Whites(s1) ==> z !in s1.order
  {
    var d := LastIndex(steps, names[0]);
    s1 := if d.Some? then Visit(steps, d.value, s) else s;
    if d.Some? {
      assert Edge(steps, v, d.value);
      forall g | 0 <= g < |s.color| && s.color[g] == Gray ensures Reaches(steps, g, d.value) {
        ReachesEdge(steps, g, v, d.value);
      }
      VisitKeeps(steps, d.value, s);
      forall z: nat ensures NewlyVisited(s, s1, z) <==> ReachesWithin(steps, Whites(s), d.value, z) {
        VisitTakesReached(steps, d.value, s, z);
      }
      forall z | z in ReachOf(steps, Whites(s), d) ensures z in s1.order { NewlyEmitted(steps, s, s1, z); }
    }
    VisitAllEmits(steps, names[1..], s1);
  }

  /** The steps that no step before `m` reaches. */
  ghost function Unreached(steps: seq<PlannedStep>, m: nat): set<nat> {
    set z: nat | z < |steps| && !ReachedBefore(steps, m, z)
  }

  /** Two steps of one block come out as its dependency lists say. */
  lemma OneBlockOrder(steps: seq<PlannedStep>, i: nat, j: nat)
    requires i < |steps| && j < |steps| && i != j && Least(steps, i) == Least(steps, j)
    ensures var m := Least(steps, i);
      && m < |steps| && m in Unreached(steps, m)
      && (Precedes(Order(steps), i, j) <==> Before(steps, Unreached(steps, m), m, i, j))
  {
    var m := Least(steps, i);
    LeastIs(steps, 0, i);
    LeastIs(steps, 0, j);
    BlockDecides(steps, m, i, j);
    BlockStays(steps, m, i, j);
  }

  /** The precedence that the visit of `m` settles is that of the whole order. */
  lemma BlockStays(steps: seq<PlannedStep>, m: nat, i: nat, j: nat)
    requires m < |steps| && i != j && i in Upto(steps, m + 1).order && j in Upto(steps, m + 1).order
    ensures Precedes(Order(steps), i, j) <==> Precedes(Upto(steps, m + 1).order, i, j)
  {
    UptoIsOnTheWay(steps, m + 1);
    VisitFromEmits(steps, m + 1, Upto(steps, m + 1));
    OrderIsDependencyOrder(steps);
    SamePrecedence(Order(steps), Upto(steps, m + 1).order, i, j);
  }

  lemma BlockDecides(steps: seq<PlannedStep>, m: nat, i: nat, j: nat)
    requires m < |steps| && i < |steps| && j < |steps| && i != j
    requires Reaches(steps, m, i) && !ReachedBefore(steps, m, i)
    requires Reaches(steps, m, j) && !ReachedBefore(steps, m, j)
    ensures i in Upto(steps, m + 1).order && j in Upto(steps, m + 1).order && m in Unreached(steps, m)
    ensures Precedes(Upto(steps, m + 1).order, i, j) <==> Before(steps, Unreached(steps, m), m, i, j)
  {
    RootIsWhite(steps, m, i);
    WhitesAreUnreached(steps, m);
    BlockVisited(steps, m, i);
    BlockVisited(steps, m, j);
    BeforeDecides(steps, m, Upto(steps, m), i, j);
  }

  lemma WhitesAreUnreached(steps: seq<PlannedStep>, m: nat)
    requires m < |steps|
    ensures Whites(Upto(steps, m)) == Unreached(steps, m)
    ensures Consistent(steps, Upto(steps, m)) && CallersReach(steps, Upto(steps, m), m)
  {
    UptoInvariant(steps, m);
    forall z: nat ensures z in Whites(Upto(steps, m)) <==> z in Unreached(steps, m) {
      SettledEmits(steps, Upto(steps, m), z);
      EmittedUpto(steps, m, z);
    }
  }

  lemma RootIsWhite(steps: seq<PlannedStep>, m: nat, i: nat)
    requires m < |steps| && Reaches(steps, m, i) && !ReachedBefore(steps, m, i)
    ensures m in Whites(Upto(steps, m))
  {
    var s := Upto(steps, m);
    UptoInvariant(steps, m);
    SettledEmits(steps, s, m);
    EmittedUpto(steps, m, i);
    if m in s.order {
      var path :| IsPath(steps, path) && path[0] == m && path[|path| - 1] == i;
      BlackAlongPath(steps, s, path);
    }
  }

  lemma BlockVisited(steps: seq<PlannedStep>, m: nat, i: nat)
    requires m < |steps| && i < |steps| && Reaches(steps, m, i) && !ReachedBefore(steps, m, i)
    ensures NewlyVisited(Upto(steps, m), Upto(steps, m + 1), i) && i in Upto(steps, m + 1).order
  {
    UptoInvariant(steps, m);
    UptoInvariant(steps, m + 1);
    assert ReachedBefore(steps, m + 1, i);
    EmittedUpto(steps, m, i);
    EmittedUpto(steps, m + 1, i);
    SettledEmits(steps, Upto(steps, m), i);
    SettledEmits(steps, Upto(steps, m + 1), i);
  }

  // ----- the promise -----

  /** Neither step depends on the other. */
  ghost predicate Independent(steps: seq<PlannedStep>, i: nat, j: nat) {
    !Reaches(steps, i, j) && !Reaches(steps, j, i)
  }

  /** What the comment on the sort promises. */
  ghost predicate KeepsIndependentOrder(steps: seq<PlannedStep>) {
    forall i: nat, j: nat :: i < j < |steps| && Independent(steps, i, j) ==> Precedes(Order(steps), i, j)
  }

  /** Step `i` belongs to an earlier block, or to the same one and its dependency lists put it first. */
  ghost predicate ComesFirst(steps: seq<PlannedStep>, i: nat, j: nat) {
    var m := Least(steps, i);
    || m < Least(steps, j)
    || (m == Least(steps, j) && m < |steps| && m in Unreached(steps, m) && Before(steps, Unreached(steps, m), m, i, j))
  }

  lemma OrderOfAnyTwo(steps: seq<PlannedStep>, i: nat, j: nat)
    requires i < |steps| && j < |steps| && i != j
    ensures Precedes(Order(steps), i, j) <==> ComesFirst(steps, i, j)
  {
    if Least(steps, i) == Least(steps, j) {
      OneBlockOrder(steps, i, j);
    } else {
      BlocksDecideOrder(steps, i, j);
    }
  }

  /** Independent steps keep their order exactly when no dependency pulls the later one ahead. */
  lemma KeepsIndependentOrderIff(steps: seq<PlannedStep>)
    ensures KeepsIndependentOrder(steps)
       <==> forall i: nat, j: nat :: i < j < |steps| && Independent(steps, i, j) ==> ComesFirst(steps, i, j)
  {
    forall i: nat, j: nat | i < j < |steps|
      ensures Precedes(Order(steps), i, j) <==> ComesFirst(steps, i, j)
    {
      OrderOfAnyTwo(steps, i, j);
    }
  }
}
