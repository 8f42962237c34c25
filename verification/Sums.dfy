/** Finite sums over the reals, with the laws the linear-algebra proofs need. */
module Sums {

  function Sum(n: nat, f: int -> real): real {
    if n == 0 then 0.0 else Sum(n - 1, f) + f(n - 1)
  }

  lemma {:induction false} SumEq(n: nat, f: int -> real, g: int -> real)
    requires forall i :: 0 <= i < n ==> f(i) == g(i)
    ensures Sum(n, f) == Sum(n, g)
  {
    if n > 0 { SumEq(n - 1, f, g); }
  }

  lemma {:induction false} SumZero(n: nat, f: int -> real)
    requires forall i :: 0 <= i < n ==> f(i) == 0.0
    ensures Sum(n, f) == 0.0
  {
    if n > 0 { SumZero(n - 1, f); }
  }

  /** Sums are linear: h = c * f + g pointwise. */
  lemma {:induction false} SumLinear(n: nat, c: real, f: int -> real, g: int -> real, h: int -> real)
    requires forall i :: 0 <= i < n ==> h(i) == c * f(i) + g(i)
    ensures Sum(n, h) == c * Sum(n, f) + Sum(n, g)
  {
    if n > 0 { SumLinear(n - 1, c, f, g, h); }
  }

  lemma SumScale(n: nat, c: real, f: int -> real, h: int -> real)
    requires forall i :: 0 <= i < n ==> h(i) == c * f(i)
    ensures Sum(n, h) == c * Sum(n, f)
  {
    SumZero(n, _ => 0.0);
    SumLinear(n, c, f, _ => 0.0, h);
  }

  /** The order of a double sum does not matter: g is f with its arguments swapped. */
  lemma {:induction false} SumSwap(m: nat, n: nat, f: (int, int) -> real, g: (int, int) -> real)
    requires forall i, j :: 0 <= i < m && 0 <= j < n ==> f(i, j) == g(j, i)
    ensures Sum(m, i => Sum(n, j => f(i, j))) == Sum(n, j => Sum(m, i => g(j, i)))
  {
    if m == 0 {
      SumZero(n, j => Sum(m, i => g(j, i)));
    } else {
      SumSwap(m - 1, n, f, g);
      var rest := j => Sum(m - 1, i => g(j, i));
      var last := j => f(m - 1, j);
      var all := j => Sum(m, i => g(j, i));
      SumLinear(n, 1.0, rest, last, all);
    }
  }
}
