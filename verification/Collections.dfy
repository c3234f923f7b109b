/** Optional values, results, ordered sequences, powers, and sums over sequences. */
module Collections {

  datatype Option<T> = None | Some(value: T)

  datatype Result<T, E> = Success(value: T) | Failure(error: E)

  // ---------- Ordered sequences ----------

  ghost predicate Ascending(row: seq<int>)
  {
    forall i, j | 0 <= i < j < |row| :: row[i] < row[j]
  }

  ghost predicate Ordered<T(!new)>(xs: seq<T>, precedes: (T, T) -> bool)
  {
    forall i, j | 0 <= i < j < |xs| :: precedes(xs[i], xs[j])
  }

  /** Inserting a value between everything that precedes it and everything it precedes keeps a sequence in order. */
  lemma InsertedOrder<T(!new)>(left: seq<T>, x: T, right: seq<T>, precedes: (T, T) -> bool)
    requires Ordered(left + right, precedes)
    requires forall y | y in left :: precedes(y, x)
    requires forall y | y in right :: precedes(x, y)
    ensures Ordered(left + [x] + right, precedes)
  {
    var xs, r, n := left + right, left + [x] + right, |left|;
    forall i, j | 0 <= i < j < |r|
      ensures precedes(r[i], r[j])
    {
      assert i < n ==> r[i] == xs[i] == left[i] && r[i] in left;
      assert j > n ==> r[j] == xs[j - 1] == right[j - n - 1] && r[j] in right;
      assert i > n ==> r[i] == xs[i - 1];
      assert j < n ==> r[j] == xs[j];
    }
  }

  lemma InsertedMembers<T>(left: seq<T>, x: T, right: seq<T>, y: T)
    ensures y in left + [x] + right <==> y in left + right || y == x
  {
    assert y in left + right <==> y in left || y in right;
    assert y in left + [x] + right <==> y in left + [x] || y in right;
    assert y in left + [x] <==> y in left || y == x;
  }

  // ---------- Powers ----------

  ghost function Power(x: real, k: nat): real
  {
    if k == 0 then 1.0 else x * Power(x, k - 1)
  }

  lemma {:induction false} PowerMeaning(x: real, j: nat, k: nat)
    ensures Power(x, 0) == 1.0 && Power(x, 1) == x && Power(x, j + k) == Power(x, j) * Power(x, k)
  {
    assert Power(x, 1) == x * Power(x, 0);
    if j > 0 {
      PowerMeaning(x, j - 1, k);
      assert x * (Power(x, j - 1) * Power(x, k)) == x * Power(x, j - 1) * Power(x, k);
    }
  }

  // ---------- Sums ----------

  ghost function Sum(xs: seq<nat>): nat
  {
    if xs == [] then 0 else Sum(xs[..|xs| - 1]) + xs[|xs| - 1]
  }

  lemma {:induction false} SumUpdate(xs: seq<nat>, i: nat, x: nat)
    requires i < |xs|
    ensures Sum(xs[i := x]) + xs[i] == Sum(xs) + x
  {
    var last := |xs| - 1;
    if i < last {
      SumUpdate(xs[..last], i, x);
      assert xs[i := x][..last] == xs[..last][i := x];
    } else {
      assert xs[i := x][..last] == xs[..last];
    }
  }
}
