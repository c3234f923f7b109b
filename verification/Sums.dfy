/** Finite sums over vertices, and sums over all ordered triples of vertices. */
module Sums {
  import opened Distances

  ghost function Sum(n: nat, f: nat -> int): int
  {
    if n == 0 then 0 else Sum(n - 1, f) + f(n - 1)
  }

  lemma {:induction false} SumEq(n: nat, f: nat -> int, g: nat -> int)
    requires forall i: nat | i < n :: f(i) == g(i)
    ensures Sum(n, f) == Sum(n, g)
  {
    if n > 0 {
      SumEq(n - 1, f, g);
    }
  }

  lemma {:induction false} SumAdd(n: nat, f: nat -> int, g: nat -> int, h: nat -> int)
    requires forall i: nat | i < n :: h(i) == f(i) + g(i)
    ensures Sum(n, h) == Sum(n, f) + Sum(n, g)
  {
    if n > 0 {
      SumAdd(n - 1, f, g, h);
    }
  }

  lemma {:induction false} SumNonneg(n: nat, f: nat -> int)
    requires forall i: nat | i < n :: f(i) >= 0
    ensures Sum(n, f) >= 0
  {
    if n > 0 {
      SumNonneg(n - 1, f);
    }
  }

  lemma {:induction false} SumZero(n: nat, f: nat -> int)
    requires forall i: nat | i < n :: f(i) == 0
    ensures Sum(n, f) == 0
  {
    if n > 0 {
      SumZero(n - 1, f);
    }
  }

  /** Changing one term changes the sum by as much. */
  lemma {:induction false} SumPoint(n: nat, f: nat -> int, g: nat -> int, k: nat, c: int)
    requires k < n && g(k) == f(k) + c
    requires forall i: nat | i < n && i != k :: g(i) == f(i)
    ensures Sum(n, g) == Sum(n, f) + c
  {
    if k == n - 1 {
      SumEq(n - 1, f, g);
    } else {
      SumPoint(n - 1, f, g, k, c);
    }
  }

  /** The order of two finite sums can be exchanged. */
  lemma {:induction false} SumExchange(n: nat, m: nat, g: (nat, nat) -> int)
    ensures Sum(n, (i: nat) => Sum(m, (j: nat) => g(i, j))) == Sum(m, (j: nat) => Sum(n, (i: nat) => g(i, j)))
  {
    var outer := (i: nat) => Sum(m, (j: nat) => g(i, j));
    var inner := (j: nat) => Sum(n, (i: nat) => g(i, j));
    if n == 0 {
      SumZero(m, inner);
    } else {
      var inner' := (j: nat) => Sum(n - 1, (i: nat) => g(i, j));
      SumExchange(n - 1, m, g);
      var last := (j: nat) => g(n - 1, j);
      forall j: nat | j < m
        ensures inner(j) == inner'(j) + last(j)
      {
        SumEq(n - 1, (i: nat) => g(i, j), (i: nat) => g(i, j));
      }
      SumAdd(m, inner', last, inner);
      SumEq(m, last, (j: nat) => g(n - 1, j));
    }
  }

  ghost function RowSum(m: nat, g: (nat, nat) -> int, u: nat): int
  {
    Sum(m, (v: nat) => g(u, v))
  }

  ghost function ColumnSum(m: nat, g: (nat, nat) -> int, v: nat): int
  {
    Sum(m, (u: nat) => g(u, v))
  }

  /** A sum over all ordered pairs of a symmetric function that is 0 on equal pairs is twice the sum over u < v. */
  lemma {:induction false} SumSymmetric(n: nat, g: (nat, nat) -> int)
    requires forall u: nat, v: nat | u < n && v < n :: g(u, v) == g(v, u)
    requires forall u: nat | u < n :: g(u, u) == 0
    ensures Sum(n, (u: nat) => RowSum(n, g, u)) == 2 * Sum(n, (v: nat) => ColumnSum(v, g, v))
  {
    if n > 0 {
      var m := n - 1;
      SumSymmetric(m, g);
      SumAdd(m, (u: nat) => RowSum(m, g, u), (u: nat) => g(u, m), (u: nat) => RowSum(n, g, u));
      SumEq(m, (v: nat) => g(m, v), (u: nat) => g(u, m));
    }
  }
}
