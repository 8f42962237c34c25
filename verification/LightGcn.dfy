/**
 * The two-layer LightGCN link predictor (internal/gnn/model.go), over the reals.
 *
 * `math.Sqrt` is a parameter: any function that is positive on the positive reals will do.
 */
module LightGcn {
  import opened Sums

  type NodeId = string
  datatype Edge = Edge(source: NodeId, target: NodeId, weight: real)

  type Matrix = seq<seq<real>>

  predicate HasShape(m: Matrix, rows: nat, cols: nat) {
    |m| == rows && forall i :: 0 <= i < rows ==> |m[i]| == cols
  }

  function At(m: Matrix, i: int, j: int): real {
    if 0 <= i < |m| && 0 <= j < |m[i]| then m[i][j] else 0.0
  }

  /** All the proofs need of the square root. */
  ghost predicate IsRoot(sqrt: real -> real) {
    forall x :: x > 0.0 ==> sqrt(x) > 0.0
  }

  // ----- specification of the passes -----

  /** Entry (i, j) of the product of `a` and `b` over an inner dimension `k`. */
  function Entry(a: Matrix, b: Matrix, k: nat, i: int, j: int): real {
    Sum(k, t => At(a, i, t) * At(b, t, j))
  }

  function MatMul(a: Matrix, b: Matrix, rows: nat, inner: nat, cols: nat): (c: Matrix)
    ensures HasShape(c, rows, cols)
  {
    seq(rows, i => seq(cols, j => Entry(a, b, inner, i, j)))
  }

  /** (H + A H + A A H) / 3. */
  function Propagate(a: Matrix, h: Matrix, n: nat, d: nat): (r: Matrix)
    ensures HasShape(r, n, d)
  {
    var h1 := MatMul(a, h, n, n, d);
    var h2 := MatMul(a, h1, n, n, d);
    seq(n, i => seq(d, j => (At(h, i, j) + At(h1, i, j) + At(h2, i, j)) / 3.0))
  }

  function RowDot(x: Matrix, y: Matrix, i: int, d: nat): real {
    Sum(d, j => At(x, i, j) * At(y, i, j))
  }

  function ColumnDot(x: Matrix, y: Matrix, j: int, n: nat): real {
    Sum(n, i => At(x, i, j) * At(y, i, j))
  }

  /** The Frobenius inner product of two n by d matrices. */
  function Inner(x: Matrix, y: Matrix, n: nat, d: nat): real {
    Sum(n, i => RowDot(x, y, i, d))
  }

  predicate Symmetric(a: Matrix, n: nat) {
    forall i, j :: 0 <= i < n && 0 <= j < n ==> At(a, i, j) == At(a, j, i)
  }

  // ----- adjointness -----

  lemma InnerByColumns(x: Matrix, y: Matrix, n: nat, d: nat)
    ensures Inner(x, y, n, d) == Sum(d, j => ColumnDot(x, y, j, n))
  {
    var f := (i, j) => At(x, i, j) * At(y, i, j);
    var g := (j, i) => At(x, i, j) * At(y, i, j);
    SumSwap(n, d, f, g);
    forall i | 0 <= i < n ensures RowDot(x, y, i, d) == Sum(d, j => f(i, j)) {
      SumEq(d, j => At(x, i, j) * At(y, i, j), j => f(i, j));
    }
    SumEq(n, i => RowDot(x, y, i, d), i => Sum(d, j => f(i, j)));
    forall j | 0 <= j < d ensures ColumnDot(x, y, j, n) == Sum(n, i => g(j, i)) {
      SumEq(n, i => At(x, i, j) * At(y, i, j), i => g(j, i));
    }
    SumEq(d, j => ColumnDot(x, y, j, n), j => Sum(n, i => g(j, i)));
  }

  lemma Rearrange(p: real, q: real, r: real)
    ensures q * (p * r) == r * (p * q)
  {
  }

  lemma PullIn(n: nat, a: (int, int) -> real, x: int -> real, y: int -> real, f: (int, int) -> real)
    requires forall i, t :: 0 <= i < n && 0 <= t < n ==> f(i, t) == y(i) * (a(i, t) * x(t))
    ensures Sum(n, i => y(i) * Sum(n, t => a(i, t) * x(t))) == Sum(n, i => Sum(n, t => f(i, t)))
  {
    forall i | 0 <= i < n ensures y(i) * Sum(n, t => a(i, t) * x(t)) == Sum(n, t => f(i, t)) {
      SumScale(n, y(i), t => a(i, t) * x(t), t => f(i, t));
    }
    SumEq(n, i => y(i) * Sum(n, t => a(i, t) * x(t)), i => Sum(n, t => f(i, t)));
  }

  lemma DoubleSums(n: nat, a: (int, int) -> real, x: int -> real, y: int -> real,
                   f: (int, int) -> real, g: (int, int) -> real)
    requires forall i, t :: 0 <= i < n && 0 <= t < n ==> f(i, t) == y(i) * (a(i, t) * x(t))
    requires forall t, i :: 0 <= t < n && 0 <= i < n ==> g(t, i) == x(t) * (a(t, i) * y(i))
    requires forall i, t :: 0 <= i < n && 0 <= t < n ==> f(i, t) == g(t, i)
    ensures Sum(n, i => y(i) * Sum(n, t => a(i, t) * x(t))) == Sum(n, i => x(i) * Sum(n, t => a(i, t) * y(t)))
  {
    PullIn(n, a, x, y, f);
    SumSwap(n, n, f, g);
    PullIn(n, a, y, x, g);
  }

  /** <y, A x> == <x, A y> for vectors and a symmetric A. */
  lemma VectorAdjoint(n: nat, a: (int, int) -> real, x: int -> real, y: int -> real)
    requires forall i, j :: 0 <= i < n && 0 <= j < n ==> a(i, j) == a(j, i)
    ensures Sum(n, i => y(i) * Sum(n, t => a(i, t) * x(t))) == Sum(n, i => x(i) * Sum(n, t => a(i, t) * y(t)))
  {
    var f := (i, t) => y(i) * (a(i, t) * x(t));
    var g := (t, i) => x(t) * (a(t, i) * y(i));
    forall i, t | 0 <= i < n && 0 <= t < n ensures f(i, t) == g(t, i) {
      Rearrange(a(i, t), y(i), x(t));
    }
    DoubleSums(n, a, x, y, f, g);
  }

  /** Column j of A x, with the matrix and the column as functions. */
  lemma ProductEntries(a: Matrix, x: Matrix, n: nat, d: nat, j: nat, aij: (int, int) -> real, xj: int -> real)
    requires j < d
    requires forall i, t :: 0 <= i < n && 0 <= t < n ==> aij(i, t) == At(a, i, t)
    requires forall i :: 0 <= i < n ==> xj(i) == At(x, i, j)
    ensures forall i :: 0 <= i < n ==> At(MatMul(a, x, n, n, d), i, j) == Sum(n, t => aij(i, t) * xj(t))
  {
    forall i | 0 <= i < n ensures At(MatMul(a, x, n, n, d), i, j) == Sum(n, t => aij(i, t) * xj(t)) {
      SumEq(n, t => At(a, i, t) * At(x, t, j), t => aij(i, t) * xj(t));
    }
  }

  lemma ColumnDotCommutes(x: Matrix, y: Matrix, j: int, n: nat)
    ensures ColumnDot(x, y, j, n) == ColumnDot(y, x, j, n)
  {
    SumEq(n, i => At(x, i, j) * At(y, i, j), i => At(y, i, j) * At(x, i, j));
  }

  lemma ProductColumnDot(a: Matrix, x: Matrix, y: Matrix, n: nat, d: nat, j: nat,
                         aij: (int, int) -> real, xj: int -> real, yj: int -> real)
    requires j < d
    requires forall i, t :: 0 <= i < n && 0 <= t < n ==> aij(i, t) == At(a, i, t)
    requires forall i :: 0 <= i < n ==> xj(i) == At(x, i, j)
    requires forall i :: 0 <= i < n ==> yj(i) == At(y, i, j)
    ensures ColumnDot(MatMul(a, x, n, n, d), y, j, n) == Sum(n, i => yj(i) * Sum(n, t => aij(i, t) * xj(t)))
  {
    var ax := MatMul(a, x, n, n, d);
    ProductEntries(a, x, n, d, j, aij, xj);
    SumEq(n, i => At(ax, i, j) * At(y, i, j), i => yj(i) * Sum(n, t => aij(i, t) * xj(t)));
  }

  lemma ColumnAdjoint(a: Matrix, x: Matrix, y: Matrix, n: nat, d: nat, j: nat)
    requires Symmetric(a, n) && j < d
    ensures ColumnDot(MatMul(a, x, n, n, d), y, j, n) == ColumnDot(x, MatMul(a, y, n, n, d), j, n)
  {
    var aij := (i: int, t: int) => At(a, i, t);
    var xj, yj := (i: int) => At(x, i, j), (i: int) => At(y, i, j);
    VectorAdjoint(n, aij, xj, yj);
    ProductColumnDot(a, x, y, n, d, j, aij, xj, yj);
    ProductColumnDot(a, y, x, n, d, j, aij, yj, xj);
    ColumnDotCommutes(x, MatMul(a, y, n, n, d), j, n);
  }

  /** One propagation step is self-adjoint. */
  lemma MatMulAdjoint(a: Matrix, x: Matrix, y: Matrix, n: nat, d: nat)
    requires Symmetric(a, n)
    ensures Inner(MatMul(a, x, n, n, d), y, n, d) == Inner(x, MatMul(a, y, n, n, d), n, d)
  {
    var ax, ay := MatMul(a, x, n, n, d), MatMul(a, y, n, n, d);
    InnerByColumns(ax, y, n, d);
    InnerByColumns(x, ay, n, d);
    forall j | 0 <= j < d ensures ColumnDot(ax, y, j, n) == ColumnDot(x, ay, j, n) {
      ColumnAdjoint(a, x, y, n, d, j);
    }
    SumEq(d, j => ColumnDot(ax, y, j, n), j => ColumnDot(x, ay, j, n));
  }

  lemma InnerCommutes(x: Matrix, y: Matrix, n: nat, d: nat)
    ensures Inner(x, y, n, d) == Inner(y, x, n, d)
  {
    forall i | 0 <= i < n ensures RowDot(x, y, i, d) == RowDot(y, x, i, d) {
      SumEq(d, j => At(x, i, j) * At(y, i, j), j => At(y, i, j) * At(x, i, j));
    }
    SumEq(n, i => RowDot(x, y, i, d), i => RowDot(y, x, i, d));
  }

  /** `m` is the mean of `p`, `q` and `r` on the first n by d entries. */
  ghost predicate IsMean(m: Matrix, p: Matrix, q: Matrix, r: Matrix, n: nat, d: nat) {
    forall i, j :: 0 <= i < n && 0 <= j < d ==> At(m, i, j) == (At(p, i, j) + At(q, i, j) + At(r, i, j)) / 3.0
  }

  lemma SumOfMean(n: nat, fm: int -> real, fp: int -> real, fq: int -> real, fr: int -> real)
    requires forall i :: 0 <= i < n ==> fm(i) == (fp(i) + fq(i) + fr(i)) / 3.0
    ensures Sum(n, fm) == (Sum(n, fp) + Sum(n, fq) + Sum(n, fr)) / 3.0
  {
    if n > 0 { SumOfMean(n - 1, fm, fp, fq, fr); }
  }

  lemma InnerOfMean(m: Matrix, p: Matrix, q: Matrix, r: Matrix, y: Matrix, n: nat, d: nat)
    requires IsMean(m, p, q, r, n, d)
    ensures Inner(m, y, n, d) == (Inner(p, y, n, d) + Inner(q, y, n, d) + Inner(r, y, n, d)) / 3.0
  {
    forall i | 0 <= i < n
      ensures RowDot(m, y, i, d) == (RowDot(p, y, i, d) + RowDot(q, y, i, d) + RowDot(r, y, i, d)) / 3.0
    {
      SumOfMean(d, j => At(m, i, j) * At(y, i, j), j => At(p, i, j) * At(y, i, j),
                j => At(q, i, j) * At(y, i, j), j => At(r, i, j) * At(y, i, j));
    }
    SumOfMean(n, i => RowDot(m, y, i, d), i => RowDot(p, y, i, d), i => RowDot(q, y, i, d), i => RowDot(r, y, i, d));
  }

  /** Both passes apply the same map, and that map is its own transpose. */
  lemma PropagateSelfAdjoint(a: Matrix, e: Matrix, g: Matrix, n: nat, d: nat)
    requires Symmetric(a, n)
    ensures Inner(Propagate(a, e, n, d), g, n, d) == Inner(e, Propagate(a, g, n, d), n, d)
  {
    var e1 := MatMul(a, e, n, n, d);
    var e2 := MatMul(a, e1, n, n, d);
    var g1 := MatMul(a, g, n, n, d);
    var g2 := MatMul(a, g1, n, n, d);
    InnerOfMean(Propagate(a, e, n, d), e, e1, e2, g, n, d);
    InnerOfMean(Propagate(a, g, n, d), g, g1, g2, e, n, d);
    MatMulAdjoint(a, e, g, n, d);
    MatMulAdjoint(a, e1, g, n, d);
    MatMulAdjoint(a, e, g1, n, d);
    InnerCommutes(e, Propagate(a, g, n, d), n, d);
    InnerCommutes(e, g, n, d);
    InnerCommutes(e, g1, n, d);
    InnerCommutes(e, g2, n, d);
  }

  // ----- the normalized adjacency -----

  predicate Indexed(index: map<NodeId, nat>, n: nat) {
    forall id :: id in index ==> index[id] < n
  }

  /** What one edge adds to entry (i, j): once per direction, so twice for a self-loop. */
  function Contribution(index: map<NodeId, nat>, e: Edge, i: int, j: int): real {
    if e.source in index && e.target in index then
      var w := if e.weight == 0.0 then 1.0 else e.weight;
      var u, v := index[e.source], index[e.target];
      (if u == i && v == j then w else 0.0) + (if v == i && u == j then w else 0.0)
    else 0.0
  }

  function Weight(index: map<NodeId, nat>, edges: seq<Edge>, i: int, j: int): real {
    if edges == [] then 0.0
    else Weight(index, edges[..|edges| - 1], i, j) + Contribution(index, edges[|edges| - 1], i, j)
  }

  function Degree(index: map<NodeId, nat>, edges: seq<Edge>, n: nat, i: int): real {
    Sum(n, j => Weight(index, edges, i, j))
  }

  /** A weight divided by the root of the product of two degrees; zero next to a non-positive degree. */
  function Scaled(sqrt: real -> real, w: real, di: real, dj: real): real
    requires IsRoot(sqrt)
  {
    if di > 0.0 && dj > 0.0 then
      assert di * dj > 0.0;
      w * (1.0 / sqrt(di * dj))
    else 0.0
  }

  function NormEntry(sqrt: real -> real, index: map<NodeId, nat>, edges: seq<Edge>, n: nat, i: int, j: int): real
    requires IsRoot(sqrt)
  {
    Scaled(sqrt, Weight(index, edges, i, j), Degree(index, edges, n, i), Degree(index, edges, n, j))
  }

  function NormAdjacency(sqrt: real -> real, index: map<NodeId, nat>, edges: seq<Edge>, n: nat): (a: Matrix)
    requires IsRoot(sqrt)
    ensures HasShape(a, n, n)
  {
    seq(n, i => seq(n, j => NormEntry(sqrt, index, edges, n, i, j)))
  }

  lemma {:induction false} WeightSymmetric(index: map<NodeId, nat>, edges: seq<Edge>, i: int, j: int)
    ensures Weight(index, edges, i, j) == Weight(index, edges, j, i)
  {
    if edges != [] { WeightSymmetric(index, edges[..|edges| - 1], i, j); }
  }

  lemma NormAdjacencySymmetric(sqrt: real -> real, index: map<NodeId, nat>, edges: seq<Edge>, n: nat)
    requires IsRoot(sqrt)
    ensures Symmetric(NormAdjacency(sqrt, index, edges, n), n)
  {
    var a := NormAdjacency(sqrt, index, edges, n);
    forall i, j | 0 <= i < n && 0 <= j < n ensures At(a, i, j) == At(a, j, i) {
      var di, dj := Degree(index, edges, n, i), Degree(index, edges, n, j);
      WeightSymmetric(index, edges, i, j);
      assert di * dj == dj * di;
    }
  }

  /** The gradient pass is the transpose of the forward pass, for every graph and every size. */
  lemma BackwardIsTransposeOfForward(
    sqrt: real -> real, index: map<NodeId, nat>, edges: seq<Edge>, n: nat, d: nat, e: Matrix, g: Matrix)
    requires IsRoot(sqrt)
    ensures var a := NormAdjacency(sqrt, index, edges, n);
      Inner(Propagate(a, e, n, d), g, n, d) == Inner(e, Propagate(a, g, n, d), n, d)
  {
    NormAdjacencySymmetric(sqrt, index, edges, n);
    PropagateSelfAdjoint(NormAdjacency(sqrt, index, edges, n), e, g, n, d);
  }

  // ----- the imperative model -----

  ghost function Rows(a: array2<real>): (m: Matrix)
    reads a
    ensures HasShape(m, a.Length0, a.Length1)
    ensures forall i, j :: 0 <= i < a.Length0 && 0 <= j < a.Length1 ==> At(m, i, j) == a[i, j]
  {
    seq(a.Length0, i requires 0 <= i < a.Length0 reads a =>
      seq(a.Length1, j requires 0 <= j < a.Length1 reads a => a[i, j]))
  }

  lemma SameMatrix(x: Matrix, y: Matrix, n: nat, d: nat)
    requires HasShape(x, n, d) && HasShape(y, n, d)
    requires forall i, j :: 0 <= i < n && 0 <= j < d ==> At(x, i, j) == At(y, i, j)
    ensures x == y
  {
    forall i | 0 <= i < n ensures x[i] == y[i] {
      assert forall j :: 0 <= j < d ==> x[i][j] == At(x, i, j) && y[i][j] == At(y, i, j);
    }
  }

  method RowTimesColumn(a: array2<real>, b: array2<real>, i: nat, j: nat) returns (sum: real)
    requires i < a.Length0 && j < b.Length1 && a.Length1 <= b.Length0
    ensures sum == Entry(Rows(a), Rows(b), a.Length1, i, j)
  {
    sum := 0.0;
    for t := 0 to a.Length1
      invariant sum == Entry(Rows(a), Rows(b), t, i, j)
    {
      sum := sum + a[i, t] * b[t, j];
    }
  }

  /** Both operands must be non-empty: the source reads their first rows. */
  method MultiplyMatrices(a: array2<real>, b: array2<real>) returns (c: array2<real>)
    requires a.Length0 > 0 && b.Length0 > 0 && a.Length1 <= b.Length0
    ensures fresh(c) && c.Length0 == a.Length0 && c.Length1 == b.Length1
    ensures Rows(c) == MatMul(Rows(a), Rows(b), a.Length0, a.Length1, b.Length1)
  {
    ghost var ma, mb := Rows(a), Rows(b);
    c := new real[a.Length0, b.Length1]((_, _) => 0.0);
    for i := 0 to a.Length0
      invariant forall p, q :: 0 <= p < i && 0 <= q < c.Length1 ==> c[p, q] == Entry(ma, mb, a.Length1, p, q)
    {
      for j := 0 to b.Length1
        invariant forall p, q :: 0 <= p < i && 0 <= q < c.Length1 ==> c[p, q] == Entry(ma, mb, a.Length1, p, q)
        invariant forall q :: 0 <= q < j ==> c[i, q] == Entry(ma, mb, a.Length1, i, q)
      {
        c[i, j] := RowTimesColumn(a, b, i, j);
      }
    }
    SameMatrix(Rows(c), MatMul(ma, mb, a.Length0, a.Length1, b.Length1), a.Length0, b.Length1);
  }

  class GnnModel {
    const numNodes: nat
    const dim: nat
    var embeddings: array2<real>
    var adjNorm: array2<real>

    ghost predicate Valid()
      reads this
    {
      && embeddings.Length0 == numNodes && embeddings.Length1 == dim
      && adjNorm.Length0 == numNodes && adjNorm.Length1 == numNodes
    }

    constructor (numNodes: nat, dim: nat, init: (nat, nat) -> real)
      ensures Valid() && this.numNodes == numNodes && this.dim == dim
    {
      this.numNodes := numNodes;
      this.dim := dim;
      embeddings := new real[numNodes, dim](init);
      adjNorm := new real[numNodes, numNodes]((_, _) => 0.0);
    }

    method BuildAdjacency(sqrt: real -> real, index: map<NodeId, nat>, edges: seq<Edge>)
      requires Valid() && IsRoot(sqrt) && Indexed(index, numNodes)
      modifies this`adjNorm
      ensures Valid() && fresh(adjNorm)
      ensures Rows(adjNorm) == NormAdjacency(sqrt, index, edges, numNodes)
    {
      var adj := AccumulateWeights(index, edges, numNodes);
      var degrees := RowSums(adj, index, edges);
      adjNorm := Normalize(sqrt, adj, degrees);
      SameMatrix(Rows(adjNorm), NormAdjacency(sqrt, index, edges, numNodes), numNodes, numNodes);
    }

    static ghost predicate HoldsWeights(adj: array2<real>, index: map<NodeId, nat>, edges: seq<Edge>)
      reads adj
    {
      && adj.Length0 == adj.Length1
      && forall p, q :: 0 <= p < adj.Length0 && 0 <= q < adj.Length1 ==> adj[p, q] == Weight(index, edges, p, q)
    }

    static method RowSums(adj: array2<real>, ghost index: map<NodeId, nat>, ghost edges: seq<Edge>)
      returns (degrees: array<real>)
      requires HoldsWeights(adj, index, edges)
      ensures fresh(degrees) && degrees.Length == adj.Length0
      ensures forall p :: 0 <= p < degrees.Length ==> degrees[p] == Degree(index, edges, degrees.Length, p)
    {
      var n := adj.Length0;
      degrees := new real[n](_ => 0.0);
      for i := 0 to n
        invariant forall p :: 0 <= p < i ==> degrees[p] == Degree(index, edges, n, p)
        invariant forall p :: i <= p < n ==> degrees[p] == 0.0
      {
        for j := 0 to n
          invariant degrees[i] == Degree(index, edges, j, i)
          invariant forall p :: 0 <= p < i ==> degrees[p] == Degree(index, edges, n, p)
          invariant forall p :: i < p < n ==> degrees[p] == 0.0
        {
          degrees[i] := degrees[i] + adj[i, j];
        }
      }
    }

    static method Normalize(sqrt: real -> real, adj: array2<real>, degrees: array<real>) returns (norm: array2<real>)
      requires IsRoot(sqrt) && adj.Length0 == adj.Length1 == degrees.Length
      ensures fresh(norm) && norm.Length0 == norm.Length1 == adj.Length0
      ensures forall p, q :: 0 <= p < norm.Length0 && 0 <= q < norm.Length1 ==>
        norm[p, q] == Scaled(sqrt, adj[p, q], degrees[p], degrees[q])
    {
      var n := adj.Length0;
      norm := new real[n, n]((_, _) => 0.0);
      for i := 0 to n
        invariant forall p, q :: 0 <= p < i && 0 <= q < n ==>
          norm[p, q] == Scaled(sqrt, adj[p, q], degrees[p], degrees[q])
      {
        for j := 0 to n
          invariant forall p, q :: 0 <= p < i && 0 <= q < n ==>
            norm[p, q] == Scaled(sqrt, adj[p, q], degrees[p], degrees[q])
          invariant forall q :: 0 <= q < j ==> norm[i, q] == Scaled(sqrt, adj[i, q], degrees[i], degrees[q])
        {
          norm[i, j] := Scaled(sqrt, adj[i, j], degrees[i], degrees[j]);
        }
      }
    }

    static method AccumulateWeights(index: map<NodeId, nat>, edges: seq<Edge>, n: nat) returns (adj: array2<real>)
      requires Indexed(index, n)
      ensures fresh(adj) && adj.Length0 == n && HoldsWeights(adj, index, edges)
    {
      adj := new real[n, n]((_, _) => 0.0);
      for k := 0 to |edges|
        invariant forall p, q :: 0 <= p < n && 0 <= q < n ==> adj[p, q] == Weight(index, edges[..k], p, q)
      {
        assert edges[..k + 1][..k] == edges[..k];
        var e := edges[k];
        if e.source in index && e.target in index {
          var u, v := index[e.source], index[e.target];
          var w := if e.weight == 0.0 then 1.0 else e.weight;
          adj[u, v] := adj[u, v] + w;
          adj[v, u] := adj[v, u] + w;
        }
      }
      assert edges[..|edges|] == edges;
    }

    /** The averaging loop that ends both passes. */
    static method MeanOfLayers(h0: array2<real>, h1: array2<real>, h2: array2<real>) returns (mean: array2<real>)
      requires h0.Length0 == h1.Length0 == h2.Length0 && h0.Length1 == h1.Length1 == h2.Length1
      ensures fresh(mean) && mean.Length0 == h0.Length0 && mean.Length1 == h0.Length1
      ensures forall p, q :: 0 <= p < mean.Length0 && 0 <= q < mean.Length1 ==>
        mean[p, q] == (h0[p, q] + h1[p, q] + h2[p, q]) / 3.0
    {
      mean := new real[h0.Length0, h0.Length1]((_, _) => 0.0);
      for i := 0 to h0.Length0
        invariant forall p, q :: 0 <= p < i && 0 <= q < mean.Length1 ==>
          mean[p, q] == (h0[p, q] + h1[p, q] + h2[p, q]) / 3.0
      {
        for j := 0 to h0.Length1
          invariant forall p, q :: 0 <= p < i && 0 <= q < mean.Length1 ==>
            mean[p, q] == (h0[p, q] + h1[p, q] + h2[p, q]) / 3.0
          invariant forall q :: 0 <= q < j ==> mean[i, q] == (h0[i, q] + h1[i, q] + h2[i, q]) / 3.0
        {
          mean[i, j] := (h0[i, j] + h1[i, j] + h2[i, j]) / 3.0;
        }
      }
    }

    method Forward() returns (result: array2<real>)
      requires Valid() && numNodes > 0
      ensures fresh(result) && result.Length0 == numNodes && result.Length1 == dim
      ensures Rows(result) == Propagate(Rows(adjNorm), Rows(embeddings), numNodes, dim)
    {
      var h1 := MultiplyMatrices(adjNorm, embeddings);
      var h2 := MultiplyMatrices(adjNorm, h1);
      result := MeanOfLayers(embeddings, h1, h2);
      SameMatrix(Rows(result), Propagate(Rows(adjNorm), Rows(embeddings), numNodes, dim), numNodes, dim);
    }

    method Backward(gradFinal: array2<real>) returns (gradH0: array2<real>)
      requires Valid() && numNodes > 0
      requires gradFinal.Length0 == numNodes && gradFinal.Length1 == dim
      ensures fresh(gradH0) && gradH0.Length0 == numNodes && gradH0.Length1 == dim
      ensures Rows(gradH0) == Propagate(Rows(adjNorm), Rows(gradFinal), numNodes, dim)
    {
      var aG := MultiplyMatrices(adjNorm, gradFinal);
      var aaG := MultiplyMatrices(adjNorm, aG);
      gradH0 := MeanOfLayers(gradFinal, aG, aaG);
      SameMatrix(Rows(gradH0), Propagate(Rows(adjNorm), Rows(gradFinal), numNodes, dim), numNodes, dim);
    }
  }
}
