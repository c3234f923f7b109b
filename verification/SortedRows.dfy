/** Ascending neighbour lists: insertion, sorting, and the merge that counts what two lists share. */
module SortedRows {
  import opened Collections

  predicate Below(x: int, y: int)
  {
    x < y
  }

  /** Binary search. */
  method Member(row: seq<nat>, v: nat) returns (found: bool)
    requires Ascending(row)
    ensures found <==> v in row
  {
    var lo, hi := 0, |row|;
    while lo < hi
      invariant 0 <= lo <= hi <= |row|
      invariant forall i | 0 <= i < lo :: row[i] < v
      invariant forall i | hi <= i < |row| :: v <= row[i]
    {
      var mid := (lo + hi) / 2;
      if row[mid] < v {
        lo := mid + 1;
      } else {
        hi := mid;
      }
    }
    found := lo < |row| && row[lo] == v;
  }

  /** Put a value at its place in a sorted list, unless it is there already. */
  method InsertSorted(list: seq<int>, value: int) returns (r: seq<int>)
    requires Ascending(list)
    ensures Ascending(r) && forall x :: x in r <==> x in list || x == value
    ensures (forall i | 0 <= i < |list| :: list[i] >= 0) && value >= 0 ==> forall i | 0 <= i < |r| :: r[i] >= 0
  {
    var i := 0;
    while i < |list| && list[i] < value
      invariant 0 <= i <= |list|
      invariant forall j | 0 <= j < i :: list[j] < value
    {
      i := i + 1;
    }
    if i == |list| || list[i] != value {
      assert list == list[..i] + list[i..];
      InsertedOrder(list[..i], value, list[i..], Below);
      forall x
        ensures x in list[..i] + [value] + list[i..] <==> x in list || x == value
      {
        InsertedMembers(list[..i], value, list[i..], x);
      }
      r := list[..i] + [value] + list[i..];
    } else {
      r := list;
    }
  }

  /** Sort and drop repeats. */
  method SortUniqueRow(row: seq<nat>) returns (r: seq<nat>)
    ensures Ascending(r) && forall x :: x in r <==> x in row
  {
    r := [];
    var i := 0;
    while i < |row|
      invariant 0 <= i <= |row| && Ascending(r)
      invariant forall x :: x in r <==> x in row[..i]
    {
      assert row[..i + 1] == row[..i] + [row[i]];
      r := InsertSorted(r, row[i]);
      i := i + 1;
    }
    assert row[..i] == row;
  }

  /** Walk two ascending lists at once: the number of values they share. */
  method IntersectionCount(a: seq<nat>, b: seq<nat>) returns (count: nat)
    requires Ascending(a) && Ascending(b)
    ensures count == |set x | x in a && x in b|
  {
    var i, j := 0, 0;
    count := 0;
    ghost var shared: set<nat> := {};
    while i < |a| && j < |b|
      invariant 0 <= i <= |a| && 0 <= j <= |b|
      invariant count == |shared|
      invariant forall x :: x in shared ==> x in a && x in b
      invariant forall k, l | 0 <= k < |a| && 0 <= l < |b| && a[k] == b[l] :: a[k] in shared <==> k < i && l < j
      invariant forall k, l | 0 <= k < |a| && 0 <= l < |b| && a[k] == b[l] :: k < i <==> l < j
    {
      if a[i] == b[j] {
        assert a[i] !in shared;
        shared := shared + {a[i]};
        count := count + 1;
        i, j := i + 1, j + 1;
      } else if a[i] < b[j] {
        i := i + 1;
      } else {
        j := j + 1;
      }
    }
    assert shared == set x | x in a && x in b;
  }
}
