/** Small shared vocabulary: optional values and results that may carry an error. */
module Std {

  datatype Option<+T> = None | Some(value: T)

  datatype Result<+T, +E> = Ok(value: T) | Err(error: E)

  predicate NoDup<T(==)>(s: seq<T>) {
    forall i, j :: 0 <= i < j < |s| ==> s[i] != s[j]
  }

  /** The numbers below `n` of which `p` holds. */
  function Marked(n: nat, p: int -> bool): set<int> {
    set i | 0 <= i < n && p(i)
  }

  lemma MarkedNext(n: nat, p: int -> bool)
    ensures |Marked(n + 1, p)| == |Marked(n, p)| + if p(n) then 1 else 0
  {
    if p(n) {
      assert Marked(n + 1, p) == Marked(n, p) + {n};
    } else {
      assert Marked(n + 1, p) == Marked(n, p);
    }
  }

  lemma {:induction false} MarkedFirst(n: nat, p: int -> bool, q: int -> bool)
    requires n > 0 && forall i :: 0 <= i < n - 1 ==> q(i) == p(i + 1)
    ensures |Marked(n, p)| == (if p(0) then 1 else 0) + |Marked(n - 1, q)|
  {
    MarkedNext(n - 1, p);
    if n == 1 {
      assert Marked(0, p) == {} && Marked(0, q) == {};
    } else {
      MarkedFirst(n - 1, p, q);
      MarkedNext(n - 2, q);
    }
  }

  /** Every non-empty finite set of integers has a greatest element. */
  lemma {:induction false} MaximumExists(s: set<int>) returns (m: int)
    requires s != {}
    ensures m in s && forall v :: v in s ==> v <= m
    decreases |s|
  {
    assert (forall x :: x !in s) ==> s == {};
    m :| m in s;
    var others := s - {m};
    assert forall v :: v in s ==> v == m || v in others;
    if others != {} {
      var rest := MaximumExists(others);
      if rest > m { m := rest; }
    }
  }
}
