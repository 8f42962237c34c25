/**
 * What the LightGCN passes and the normalized adjacency compute, entry by entry and as laws of the graph
 * (internal/gnn/model.go).
 */
module LightGcnLaws {
  import opened Sums
  import opened LightGcn

  // ----- the passes -----

  /** Each entry is a third of the base entry, its one-step sum and its two-step sum. */
  lemma PropagateEntries(a: Matrix, h: Matrix, n: nat, d: nat, i: nat, j: nat)
    requires i < n && j < d
    ensures 3.0 * At(Propagate(a, h, n, d), i, j) ==
      At(h, i, j)
      + Sum(n, t => At(a, i, t) * At(h, t, j))
      + Sum(n, t => At(a, i, t) * Sum(n, s => At(a, t, s) * At(h, s, j)))
  {
    var h1 := MatMul(a, h, n, n, d);
    SumEq(n, t => At(a, i, t) * At(h1, t, j), t => At(a, i, t) * Sum(n, s => At(a, t, s) * At(h, s, j)));
  }

  /** Column `j` of `h` is an eigenvector of `a` with eigenvalue `c`. */
  ghost predicate Eigencolumn(a: Matrix, h: Matrix, n: nat, j: nat, c: real) {
    forall i :: 0 <= i < n ==> Sum(n, t => At(a, i, t) * At(h, t, j)) == c * At(h, i, j)
  }

  lemma SecondStep(a: Matrix, h: Matrix, n: nat, i: nat, j: nat, c: real)
    requires i < n && Eigencolumn(a, h, n, j, c)
    ensures Sum(n, t => At(a, i, t) * Sum(n, s => At(a, t, s) * At(h, s, j))) == c * (c * At(h, i, j))
  {
    var once := (t: int) => At(a, i, t) * At(h, t, j);
    var twice := (t: int) => At(a, i, t) * Sum(n, s => At(a, t, s) * At(h, s, j));
    forall t | 0 <= t < n ensures twice(t) == c * once(t) {
      Rearranged(At(a, i, t), c, At(h, t, j));
    }
    SumScale(n, c, once, twice);
    SumEq(n, once, t => At(a, i, t) * At(h, t, j));
    SumEq(n, twice, t => At(a, i, t) * Sum(n, s => At(a, t, s) * At(h, s, j)));
  }

  lemma Rearranged(p: real, c: real, q: real)
    ensures p * (c * q) == c * (p * q)
  {
  }

  /** A pass multiplies an eigenvector by (1 + c + c * c) / 3. */
  lemma PropagateSpectrum(a: Matrix, h: Matrix, n: nat, d: nat, i: nat, j: nat, c: real)
    requires i < n && j < d && Eigencolumn(a, h, n, j, c)
    ensures 3.0 * At(Propagate(a, h, n, d), i, j) == At(h, i, j) + c * At(h, i, j) + c * (c * At(h, i, j))
  {
    PropagateEntries(a, h, n, d, i, j);
    SecondStep(a, h, n, i, j, c);
  }

  // ----- the weights -----

  /** What an edge weighs; zero stands for one, and an edge with an unknown end does not count. */
  function Effective(index: map<NodeId, nat>, e: Edge): real {
    if e.source !in index || e.target !in index then 0.0 else if e.weight == 0.0 then 1.0 else e.weight
  }

  function TotalWeight(index: map<NodeId, nat>, edges: seq<Edge>): real {
    if edges == [] then 0.0
    else TotalWeight(index, edges[..|edges| - 1]) + Effective(index, edges[|edges| - 1])
  }

  /** An edge puts its weight between its two ends and nowhere else; a self-loop counts twice. */
  lemma EdgeJoinsItsEnds(index: map<NodeId, nat>, e: Edge, i: nat, j: nat)
    requires e.source in index && e.target in index
    ensures var u, v := index[e.source], index[e.target];
      Weight(index, [e], i, j) ==
        if u == v == i == j then 2.0 * Effective(index, e)
        else if {i, j} == {u, v} then Effective(index, e)
        else 0.0
  {
    assert [e][..0] == [];
    var u, v := index[e.source], index[e.target];
    if {i, j} == {u, v} {
      assert i in {u, v} && j in {u, v} && u in {i, j} && v in {i, j};
    } else {
      assert u == i ==> v != j;
      assert v == i ==> u != j;
    }
  }

  lemma {:induction false} WeightsAdd(index: map<NodeId, nat>, a: seq<Edge>, b: seq<Edge>, i: int, j: int)
    ensures Weight(index, a + b, i, j) == Weight(index, a, i, j) + Weight(index, b, i, j)
  {
    if b == [] {
      assert a + b == a;
    } else {
      assert (a + b)[..|a + b| - 1] == a + b[..|b| - 1];
      WeightsAdd(index, a, b[..|b| - 1], i, j);
    }
  }

  lemma {:induction false} SumOfOne(n: nat, u: nat, w: real, f: int -> real)
    requires forall i :: 0 <= i < n ==> f(i) == if i == u then w else 0.0
    ensures Sum(n, f) == if u < n then w else 0.0
  {
    if n > 0 { SumOfOne(n - 1, u, w, f); }
  }

  lemma ContributionRow(index: map<NodeId, nat>, e: Edge, n: nat, i: nat)
    requires Indexed(index, n) && e.source in index && e.target in index
    ensures Sum(n, j => Contribution(index, e, i, j)) ==
      (if index[e.source] == i then Effective(index, e) else 0.0)
      + (if index[e.target] == i then Effective(index, e) else 0.0)
  {
    var w, u, v := Effective(index, e), index[e.source], index[e.target];
    var out := (j: int) => if j == v then (if u == i then w else 0.0) else 0.0;
    var back := (j: int) => if j == u then (if v == i then w else 0.0) else 0.0;
    SumOfOne(n, v, if u == i then w else 0.0, out);
    SumOfOne(n, u, if v == i then w else 0.0, back);
    SumLinear(n, 1.0, out, back, j => Contribution(index, e, i, j));
  }

  lemma ContributionTotal(index: map<NodeId, nat>, e: Edge, n: nat)
    requires Indexed(index, n)
    ensures Sum(n, i => Sum(n, j => Contribution(index, e, i, j))) == 2.0 * Effective(index, e)
  {
    var total := (i: int) => Sum(n, j => Contribution(index, e, i, j));
    if e.source in index && e.target in index {
      var w, u, v := Effective(index, e), index[e.source], index[e.target];
      var out := (i: int) => if i == u then w else 0.0;
      var back := (i: int) => if i == v then w else 0.0;
      SumOfOne(n, u, w, out);
      SumOfOne(n, v, w, back);
      forall i | 0 <= i < n ensures total(i) == 1.0 * out(i) + back(i) { ContributionRow(index, e, n, i); }
      SumLinear(n, 1.0, out, back, total);
    } else {
      forall i | 0 <= i < n ensures total(i) == 0.0 { SumZero(n, j => Contribution(index, e, i, j)); }
      SumZero(n, total);
    }
    SumEq(n, total, i => Sum(n, j => Contribution(index, e, i, j)));
  }

  lemma DegreeOfLast(index: map<NodeId, nat>, edges: seq<Edge>, n: nat, i: int)
    requires edges != []
    ensures Degree(index, edges, n, i) == Degree(index, edges[..|edges| - 1], n, i)
      + Sum(n, j => Contribution(index, edges[|edges| - 1], i, j))
  {
    var front, e := edges[..|edges| - 1], edges[|edges| - 1];
    SumLinear(n, 1.0, j => Weight(index, front, i, j), j => Contribution(index, e, i, j),
              j => Weight(index, edges, i, j));
    SumEq(n, j => Contribution(index, e, i, j), j => Contribution(index, edges[|edges| - 1], i, j));
  }

  lemma SumOfTwo(n: nat, f: int -> real, g: int -> real, h: int -> real)
    requires forall i :: 0 <= i < n ==> h(i) == f(i) + g(i)
    ensures Sum(n, h) == Sum(n, f) + Sum(n, g)
  {
    SumLinear(n, 1.0, f, g, h);
  }

  /** The degrees add up to twice the weight of the edges. */
  lemma {:induction false} Handshake(index: map<NodeId, nat>, edges: seq<Edge>, n: nat)
    requires Indexed(index, n)
    ensures Sum(n, i => Degree(index, edges, n, i)) == 2.0 * TotalWeight(index, edges)
  {
    if edges == [] {
      forall i | 0 <= i < n ensures Degree(index, edges, n, i) == 0.0 {
        SumZero(n, j => Weight(index, edges, i, j));
      }
      SumZero(n, i => Degree(index, edges, n, i));
    } else {
      var front, e := edges[..|edges| - 1], edges[|edges| - 1];
      Handshake(index, front, n);
      ContributionTotal(index, e, n);
      forall i | 0 <= i < n
        ensures Degree(index, edges, n, i) == Degree(index, front, n, i) + Sum(n, j => Contribution(index, e, i, j))
      {
        DegreeOfLast(index, edges, n, i);
      }
      SumOfTwo(n, i => Degree(index, front, n, i), i => Sum(n, j => Contribution(index, e, i, j)),
               i => Degree(index, edges, n, i));
    }
  }

  // ----- the normalization -----

  /** A true square root, as `math.Sqrt` is. */
  ghost predicate TrueRoot(sqrt: real -> real) {
    forall x :: x >= 0.0 ==> RootAt(sqrt, x)
  }

  predicate RootAt(sqrt: real -> real, x: real) {
    sqrt(x) >= 0.0 && sqrt(x) * sqrt(x) == x
  }

  lemma TrueRootIsRoot(sqrt: real -> real)
    requires TrueRoot(sqrt)
    ensures IsRoot(sqrt)
  {
    forall x | x > 0.0 ensures sqrt(x) > 0.0 {
      assert RootAt(sqrt, x);
    }
  }

  lemma Smaller(p: real, q: real)
    requires 0.0 <= p < q
    ensures p * p < q * q
  {
    var s, t := q - p, q + p;
    assert s * t > 0.0;
    assert s * t == q * q - p * p;
  }

  lemma SquaresDetermine(p: real, q: real)
    requires p >= 0.0 && q >= 0.0 && p * p == q * q
    ensures p == q
  {
    if p < q {
      Smaller(p, q);
    } else if q < p {
      Smaller(q, p);
    }
  }

  lemma SquareOfProduct(p: real, q: real)
    ensures (p * q) * (p * q) == (p * p) * (q * q)
  {
  }

  lemma RootOfProduct(sqrt: real -> real, x: real, y: real)
    requires TrueRoot(sqrt) && x >= 0.0 && y >= 0.0
    ensures sqrt(x * y) == sqrt(x) * sqrt(y)
  {
    assert x * y >= 0.0;
    assert RootAt(sqrt, x) && RootAt(sqrt, y) && RootAt(sqrt, x * y);
    assert sqrt(x) * sqrt(y) >= 0.0;
    SquareOfProduct(sqrt(x), sqrt(y));
    SquaresDetermine(sqrt(x * y), sqrt(x) * sqrt(y));
  }

  lemma InverseSquared(q: real, r: real)
    requires q * r == 1.0
    ensures (q * q) * (r * r) == 1.0
  {
    SquareOfProduct(q, r);
  }

  lemma Regrouped(w: real, q: real, p: real)
    ensures (w * q) * (w * q) * p == (w * w) * ((q * q) * p)
  {
    SquareOfProduct(w, q);
    assert (w * w) * (q * q) * p == (w * w) * ((q * q) * p);
  }

  /** What normalization makes of a weight `w` between nodes of degrees `di` and `dj`. */
  predicate Normalized(e: real, w: real, di: real, dj: real) {
    if di > 0.0 && dj > 0.0 then e * e * (di * dj) == w * w && (w > 0.0 <==> e > 0.0) else e == 0.0
  }

  /** An entry squared, times both degrees, is the weight squared; next to a non-positive degree it is zero. */
  lemma ScaledIsNormalized(sqrt: real -> real, w: real, di: real, dj: real)
    requires TrueRoot(sqrt) && IsRoot(sqrt)
    ensures Normalized(Scaled(sqrt, w, di, dj), w, di, dj)
  {
    if di > 0.0 && dj > 0.0 {
      assert di * dj > 0.0 && RootAt(sqrt, di * dj);
      var r := sqrt(di * dj);
      var q := 1.0 / r;
      assert q * r == 1.0 && q > 0.0;
      InverseSquared(q, r);
      Regrouped(w, q, di * dj);
      Signs(w, q);
    }
  }

  lemma Signs(w: real, q: real)
    requires q > 0.0
    ensures w > 0.0 <==> w * q > 0.0
  {
  }

  lemma QuotientByProduct(w: real, p: real, q: real)
    requires p > 0.0 && q > 0.0 && p * q > 0.0
    ensures w * (1.0 / (p * q)) * q == (1.0 / p) * w
  {
    assert (1.0 / (p * q)) * (p * q) == 1.0;
    assert (1.0 / p) * p == 1.0;
    var r, s := 1.0 / (p * q), 1.0 / p;
    assert r * q == s by {
      assert (r * q) * p == r * (p * q);
      assert (r * q - s) * p == 0.0;
    }
    assert w * r * q == w * (r * q);
  }

  lemma {:induction false} PartsVanish(n: nat, f: int -> real)
    requires forall i :: 0 <= i < n ==> f(i) >= 0.0
    ensures Sum(n, f) >= 0.0
    ensures Sum(n, f) == 0.0 ==> forall i :: 0 <= i < n ==> f(i) == 0.0
  {
    if n > 0 { PartsVanish(n - 1, f); }
  }

  lemma {:induction false} WeightNonNegative(index: map<NodeId, nat>, edges: seq<Edge>, i: int, j: int)
    requires forall e :: e in edges ==> e.weight >= 0.0
    ensures Weight(index, edges, i, j) >= 0.0
  {
    if edges != [] { WeightNonNegative(index, edges[..|edges| - 1], i, j); }
  }

  lemma DegreeNonNegative(index: map<NodeId, nat>, edges: seq<Edge>, n: nat, i: int)
    requires forall e :: e in edges ==> e.weight >= 0.0
    ensures Degree(index, edges, n, i) >= 0.0
    ensures Degree(index, edges, n, i) == 0.0 ==> forall j :: 0 <= j < n ==> Weight(index, edges, i, j) == 0.0
  {
    var f := (j: int) => Weight(index, edges, i, j);
    forall j | 0 <= j < n ensures f(j) >= 0.0 { WeightNonNegative(index, edges, i, j); }
    PartsVanish(n, f);
    SumEq(n, f, j => Weight(index, edges, i, j));
    if Degree(index, edges, n, i) == 0.0 {
      forall j | 0 <= j < n ensures Weight(index, edges, i, j) == 0.0 { assert f(j) == 0.0; }
    }
  }

  function InverseRoot(sqrt: real -> real, d: real): real
    requires IsRoot(sqrt)
  {
    if d > 0.0 then 1.0 / sqrt(d) else 0.0
  }

  lemma InverseTimesDegree(sqrt: real -> real, d: real)
    requires TrueRoot(sqrt) && IsRoot(sqrt) && d >= 0.0
    ensures InverseRoot(sqrt, d) * d == sqrt(d)
  {
    assert RootAt(sqrt, d);
    if d == 0.0 {
      SquaresDetermine(sqrt(0.0), 0.0);
    } else {
      var r := sqrt(d);
      var q := 1.0 / r;
      assert q * r == 1.0;
      assert q * (r * r) == (q * r) * r;
    }
  }

  lemma TermOfRoots(sqrt: real -> real, w: real, di: real, dt: real)
    requires TrueRoot(sqrt) && IsRoot(sqrt) && di >= 0.0 && dt >= 0.0
    requires dt == 0.0 ==> w == 0.0
    ensures Scaled(sqrt, w, di, dt) * sqrt(dt) == InverseRoot(sqrt, di) * w
  {
    if di > 0.0 && dt > 0.0 {
      RootOfProduct(sqrt, di, dt);
      assert sqrt(di) * sqrt(dt) > 0.0;
      QuotientByProduct(w, sqrt(di), sqrt(dt));
    }
  }

  // A row of weights `w` summing to `d`, the degrees `deg` of its columns, its entries `e` once scaled,
  // the roots `x` of the degrees, and the products of the last two.

  ghost predicate Fits(n: nat, w: int -> real, deg: int -> real, d: real) {
    && d >= 0.0
    && Sum(n, w) == d
    && forall t :: 0 <= t < n ==> deg(t) >= 0.0 && (deg(t) == 0.0 ==> w(t) == 0.0)
  }

  ghost predicate ScaledRow(sqrt: real -> real, n: nat, w: int -> real, deg: int -> real, d: real, e: int -> real)
    requires IsRoot(sqrt)
  {
    forall t :: 0 <= t < n ==> e(t) == Scaled(sqrt, w(t), d, deg(t))
  }

  ghost predicate RootsRow(sqrt: real -> real, n: nat, deg: int -> real, x: int -> real) {
    forall t :: 0 <= t < n ==> x(t) == sqrt(deg(t))
  }

  ghost predicate ProductsRow(n: nat, e: int -> real, x: int -> real, term: int -> real) {
    forall t :: 0 <= t < n ==> term(t) == e(t) * x(t)
  }

  ghost predicate MultiplesRow(n: nat, q: real, w: int -> real, term: int -> real) {
    forall t :: 0 <= t < n ==> term(t) == q * w(t)
  }

  lemma TermOfRow(sqrt: real -> real, e: real, x: real, q: real, w: real, di: real, dt: real)
    requires TrueRoot(sqrt) && IsRoot(sqrt) && di >= 0.0 && dt >= 0.0
    requires dt == 0.0 ==> w == 0.0
    requires e == Scaled(sqrt, w, di, dt) && x == sqrt(dt) && q == InverseRoot(sqrt, di)
    ensures e * x == q * w
  {
    TermOfRoots(sqrt, w, di, dt);
  }

  lemma TermsOfRow(sqrt: real -> real, n: nat, q: real, w: int -> real, deg: int -> real, d: real,
                   e: int -> real, x: int -> real, term: int -> real)
    requires TrueRoot(sqrt) && IsRoot(sqrt) && Fits(n, w, deg, d) && q == InverseRoot(sqrt, d)
    requires ScaledRow(sqrt, n, w, deg, d, e) && RootsRow(sqrt, n, deg, x) && ProductsRow(n, e, x, term)
    ensures MultiplesRow(n, q, w, term)
  {
    forall t | 0 <= t < n ensures term(t) == q * w(t) {
      TermOfRow(sqrt, e(t), x(t), q, w(t), d, deg(t));
    }
  }

  lemma SumOfMultiples(n: nat, q: real, w: int -> real, term: int -> real, d: real, r: real)
    requires Sum(n, w) == d && q * d == r && MultiplesRow(n, q, w, term)
    ensures Sum(n, term) == r
  {
    SumScale(n, q, w, term);
  }

  /** The scaled row times the roots of the degrees is the root of the degree of the row. */
  lemma RowOfRoots(sqrt: real -> real, n: nat, w: int -> real, deg: int -> real, d: real,
                   e: int -> real, x: int -> real, term: int -> real)
    requires TrueRoot(sqrt) && IsRoot(sqrt) && Fits(n, w, deg, d)
    requires ScaledRow(sqrt, n, w, deg, d, e) && RootsRow(sqrt, n, deg, x) && ProductsRow(n, e, x, term)
    ensures Sum(n, term) == sqrt(d)
  {
    TermsOfRow(sqrt, n, InverseRoot(sqrt, d), w, deg, d, e, x, term);
    InverseTimesDegree(sqrt, d);
    SumOfMultiples(n, InverseRoot(sqrt, d), w, term, d, sqrt(d));
  }

  lemma DegreesFit(index: map<NodeId, nat>, edges: seq<Edge>, n: nat, k: nat, w: int -> real, deg: int -> real)
    requires k < n && forall e :: e in edges ==> e.weight >= 0.0
    requires forall t :: w(t) == Weight(index, edges, k, t)
    requires forall t :: deg(t) == Degree(index, edges, n, t)
    ensures Fits(n, w, deg, Degree(index, edges, n, k))
  {
    DegreeNonNegative(index, edges, n, k);
    SumEq(n, w, t => Weight(index, edges, k, t));
    forall t | 0 <= t < n ensures deg(t) >= 0.0 && (deg(t) == 0.0 ==> w(t) == 0.0) {
      DegreeNonNegative(index, edges, n, t);
      WeightSymmetric(index, edges, k, t);
    }
  }

  lemma EntriesScaled(sqrt: real -> real, index: map<NodeId, nat>, edges: seq<Edge>, n: nat, k: nat,
                      w: int -> real, deg: int -> real, e: int -> real)
    requires IsRoot(sqrt) && k < n
    requires forall t :: w(t) == Weight(index, edges, k, t)
    requires forall t :: deg(t) == Degree(index, edges, n, t)
    requires forall t :: e(t) == At(NormAdjacency(sqrt, index, edges, n), k, t)
    ensures ScaledRow(sqrt, n, w, deg, Degree(index, edges, n, k), e)
  {
    forall t | 0 <= t < n ensures e(t) == Scaled(sqrt, w(t), Degree(index, edges, n, k), deg(t)) {
      assert e(t) == NormEntry(sqrt, index, edges, n, k, t);
    }
  }

  lemma RowFixed(sqrt: real -> real, index: map<NodeId, nat>, edges: seq<Edge>, n: nat, k: nat,
                 w: int -> real, deg: int -> real, e: int -> real, x: int -> real, term: int -> real)
    requires TrueRoot(sqrt) && IsRoot(sqrt) && k < n
    requires forall edge :: edge in edges ==> edge.weight >= 0.0
    requires forall t :: w(t) == Weight(index, edges, k, t)
    requires forall t :: deg(t) == Degree(index, edges, n, t)
    requires forall t :: e(t) == At(NormAdjacency(sqrt, index, edges, n), k, t)
    requires RootsRow(sqrt, n, deg, x) && ProductsRow(n, e, x, term)
    ensures Sum(n, term) == sqrt(Degree(index, edges, n, k))
  {
    DegreesFit(index, edges, n, k, w, deg);
    EntriesScaled(sqrt, index, edges, n, k, w, deg, e);
    RowOfRoots(sqrt, n, w, deg, Degree(index, edges, n, k), e, x, term);
  }

  /** One step of the normalized adjacency leaves a column of the square roots of the degrees as it is. */
  lemma RootsOfDegreesFixed(sqrt: real -> real, index: map<NodeId, nat>, edges: seq<Edge>, n: nat, h: Matrix, j: nat)
    requires TrueRoot(sqrt) && IsRoot(sqrt)
    requires forall e :: e in edges ==> e.weight >= 0.0
    requires forall t :: 0 <= t < n ==> At(h, t, j) == sqrt(Degree(index, edges, n, t))
    ensures Eigencolumn(NormAdjacency(sqrt, index, edges, n), h, n, j, 1.0)
  {
    var a := NormAdjacency(sqrt, index, edges, n);
    forall k | 0 <= k < n ensures Sum(n, t => At(a, k, t) * At(h, t, j)) == 1.0 * At(h, k, j) {
      RowFixed(sqrt, index, edges, n, k, t => Weight(index, edges, k, t), t => Degree(index, edges, n, t),
               t => At(a, k, t), t => At(h, t, j), t => At(a, k, t) * At(h, t, j));
    }
  }

  /** A whole pass leaves a column of the square roots of the degrees as it is. */
  lemma PassFixesRootsOfDegrees(
    sqrt: real -> real, index: map<NodeId, nat>, edges: seq<Edge>, n: nat, d: nat, h: Matrix, i: nat, j: nat)
    requires TrueRoot(sqrt) && IsRoot(sqrt) && i < n && j < d
    requires forall e :: e in edges ==> e.weight >= 0.0
    requires forall t :: 0 <= t < n ==> At(h, t, j) == sqrt(Degree(index, edges, n, t))
    ensures At(Propagate(NormAdjacency(sqrt, index, edges, n), h, n, d), i, j) == At(h, i, j)
  {
    RootsOfDegreesFixed(sqrt, index, edges, n, h, j);
    PropagateSpectrum(NormAdjacency(sqrt, index, edges, n), h, n, d, i, j, 1.0);
  }
}
