/** One direction of the dynamic graph: compact rows, some of them replaced by patches, under a sorted overlay of
    pending changes per row. */
module RowStores {
  import opened Distances
  import opened DynamicGraphs
  import opened BreadthFirst
  import opened Csr
  import opened SortedRows
  import opened Collections

  // ---------- One overlay row ----------

  /** A pending change of one row: the arc to dst is present, or absent, whatever the compact row says. */
  datatype Entry = Entry(dst: nat, present: bool)

  ghost predicate InOrder(row: seq<Entry>)
  {
    forall i, j | 0 <= i < j < |row| :: row[i].dst < row[j].dst
  }

  /** What an overlay row says of v, if anything. */
  ghost function Override(row: seq<Entry>, v: nat): Option<bool>
  {
    if Entry(v, true) in row then Some(true) else if Entry(v, false) in row then Some(false) else None
  }

  /** Whether v is a neighbour: the overlay decides if it speaks of v, the compact row otherwise. */
  ghost predicate Effective(row: seq<nat>, overlay: seq<Entry>, v: nat)
  {
    match Override(overlay, v)
    case Some(present) => present
    case None => v in row
  }

  /** Binary search: the first position at or above v. */
  method Position(row: seq<Entry>, v: nat) returns (pos: nat)
    requires InOrder(row)
    ensures pos <= |row|
    ensures forall i | 0 <= i < pos :: row[i].dst < v
    ensures forall i | pos <= i < |row| :: v <= row[i].dst
    ensures Override(row, v) == if pos < |row| && row[pos].dst == v then Some(row[pos].present) else None
  {
    var lo, hi := 0, |row|;
    while lo < hi
      invariant 0 <= lo <= hi <= |row|
      invariant forall i | 0 <= i < lo :: row[i].dst < v
      invariant forall i | hi <= i < |row| :: v <= row[i].dst
    {
      var mid := (lo + hi) / 2;
      if row[mid].dst < v {
        lo := mid + 1;
      } else {
        hi := mid;
      }
    }
    pos := lo;
    OnlyEntry(row, pos, v);
  }

  lemma OnlyEntry(row: seq<Entry>, pos: nat, v: nat)
    requires InOrder(row) && pos <= |row|
    requires forall i | 0 <= i < pos :: row[i].dst < v
    requires forall i | pos <= i < |row| :: v <= row[i].dst
    ensures Override(row, v) == if pos < |row| && row[pos].dst == v then Some(row[pos].present) else None
  {
    forall present | Entry(v, present) in row
      ensures pos < |row| && row[pos] == Entry(v, present)
    {
      var i :| 0 <= i < |row| && row[i] == Entry(v, present);
    }
  }

  /** `after` says what `before` says, but of v it says `now`. */
  ghost predicate Edited(before: seq<Entry>, after: seq<Entry>, v: nat, now: Option<bool>)
  {
    && InOrder(after)
    && (forall e: Entry | e.dst != v :: e in after <==> e in before)
    && (forall e: Entry | e.dst == v :: e in after <==> now == Some(e.present))
  }

  /** Insert the entry of v at its place, or overwrite it. */
  method Put(row: seq<Entry>, v: nat, present: bool) returns (r: seq<Entry>)
    requires InOrder(row)
    ensures Edited(row, r, v, Some(present)) && r != []
  {
    var pos := Position(row, v);
    if pos < |row| && row[pos].dst == v {
      r := row[pos := Entry(v, present)];
      Overwritten(row, pos, present);
    } else {
      r := row[..pos] + [Entry(v, present)] + row[pos..];
      Inserted(row, pos, v, present);
    }
  }

  lemma Overwritten(row: seq<Entry>, pos: nat, present: bool)
    requires InOrder(row) && pos < |row|
    ensures Edited(row, row[pos := Entry(row[pos].dst, present)], row[pos].dst, Some(present))
  {
    var e := Entry(row[pos].dst, present);
    var r := row[pos := e];
    forall x: Entry
      ensures x in r <==> x == e || (x in row && x.dst != e.dst)
    {
      if x in row && x.dst != e.dst {
        var i :| 0 <= i < |row| && row[i] == x;
        assert r[i] == x;
      }
      assert r[pos] == e;
    }
  }

  lemma Inserted(row: seq<Entry>, pos: nat, v: nat, present: bool)
    requires InOrder(row) && pos <= |row|
    requires forall i | 0 <= i < pos :: row[i].dst < v
    requires forall i | pos <= i < |row| :: v < row[i].dst
    ensures Edited(row, row[..pos] + [Entry(v, present)] + row[pos..], v, Some(present))
  {
    var left, right, e := row[..pos], row[pos..], Entry(v, present);
    assert row == left + right;
    assert forall x | x in left :: x.dst < v;
    assert forall x | x in right :: v < x.dst;
    InsertedOrder(left, e, right, Before);
    forall x: Entry
      ensures x in left + [e] + right <==> x in row || x == e
      ensures x in row ==> x.dst != v
    {
      InsertedMembers(left, e, right, x);
      assert x in left + right <==> x in left || x in right;
    }
  }

  ghost predicate Before(x: Entry, y: Entry)
  {
    x.dst < y.dst
  }

  lemma Dropped(row: seq<Entry>, pos: nat)
    requires InOrder(row) && pos < |row|
    ensures Edited(row, row[..pos] + row[pos + 1..], row[pos].dst, None)
  {
    var left, right, e := row[..pos], row[pos + 1..], row[pos];
    assert row == left + [e] + right;
    assert forall x | x in left :: x.dst < e.dst;
    assert forall x | x in right :: e.dst < x.dst;
    forall x: Entry
      ensures x in left + right <==> x in row && x.dst != e.dst
    {
      InsertedMembers(left, e, right, x);
      assert x in left + right <==> x in left || x in right;
    }
  }

  /** Remove the entry of v, if there is one. */
  method Drop(row: seq<Entry>, v: nat) returns (r: seq<Entry>)
    requires InOrder(row)
    ensures Edited(row, r, v, None)
  {
    var pos := Position(row, v);
    if pos == |row| || row[pos].dst != v {
      assert forall x | x in row :: x.dst != v;
      return row;
    }
    r := row[..pos] + row[pos + 1..];
    Dropped(row, pos);
  }

  // ---------- Merging a row with its overlay ----------

  lemma NextEffective(row: seq<nat>, overlay: seq<Entry>, i: nat, j: nat, v: nat)
    requires InOrder(overlay) && i <= |row| && j <= |overlay|
    ensures i < |row| && v != row[i] ==>
      Effective(row[..i + 1], overlay[..j], v) == Effective(row[..i], overlay[..j], v)
    ensures j < |overlay| && v != overlay[j].dst ==>
      Effective(row[..i], overlay[..j + 1], v) == Effective(row[..i], overlay[..j], v)
  {
    if i < |row| {
      assert row[..i + 1] == row[..i] + [row[i]];
    }
    if j < |overlay| {
      assert overlay[..j + 1] == overlay[..j] + [overlay[j]];
    }
  }

  lemma EntryIsEffective(row: seq<nat>, overlay: seq<Entry>, i: nat, j: nat)
    requires InOrder(overlay) && i <= |row| && j < |overlay|
    ensures Effective(row[..i], overlay[..j + 1], overlay[j].dst) == overlay[j].present
  {
    var (rest, e) := (overlay[..j + 1], overlay[j]);
    assert rest[j] == e;
    forall p | Entry(e.dst, p) in rest
      ensures p == e.present
    {
      var k :| 0 <= k < |rest| && rest[k] == Entry(e.dst, p);
    }
  }

  /** How far a merge has come: everything taken so far lies below what is left. */
  ghost predicate Apart(row: seq<nat>, overlay: seq<Entry>, i: nat, j: nat)
    requires i <= |row| && j <= |overlay|
  {
    && (forall k, l | 0 <= k < i && j <= l < |overlay| :: row[k] < overlay[l].dst)
    && (forall k, l | 0 <= k < j && i <= l < |row| :: overlay[k].dst < row[l])
  }

  ghost predicate Merged(row: seq<nat>, overlay: seq<Entry>, i: nat, j: nat, out: seq<nat>)
    requires i <= |row| && j <= |overlay|
  {
    && Apart(row, overlay, i, j) && Ascending(out)
    && (forall v :: v in out <==> Effective(row[..i], overlay[..j], v))
    && (i < |row| ==> forall k | 0 <= k < |out| :: out[k] < row[i])
    && (j < |overlay| ==> forall k | 0 <= k < |out| :: out[k] < overlay[j].dst)
  }

  lemma TakeCompact(row: seq<nat>, overlay: seq<Entry>, i: nat, j: nat, out: seq<nat>)
    requires Ascending(row) && InOrder(overlay) && i < |row| && j <= |overlay| && Merged(row, overlay, i, j, out)
    requires j < |overlay| ==> row[i] < overlay[j].dst
    ensures Merged(row, overlay, i + 1, j, out + [row[i]])
  {
    var more := out + [row[i]];
    forall v
      ensures v in more <==> Effective(row[..i + 1], overlay[..j], v)
    {
      NextEffective(row, overlay, i, j, v);
      assert v in more <==> v in out || v == row[i];
      if v == row[i] {
        assert row[..i + 1][i] == v;
        assert Override(overlay[..j], v) == None;
      }
    }
  }

  lemma TakeEntry(row: seq<nat>, overlay: seq<Entry>, i: nat, j: nat, out: seq<nat>)
    requires Ascending(row) && InOrder(overlay) && i <= |row| && j < |overlay| && Merged(row, overlay, i, j, out)
    requires i < |row| ==> overlay[j].dst < row[i]
    ensures Merged(row, overlay, i, j + 1, if overlay[j].present then out + [overlay[j].dst] else out)
  {
    var e := overlay[j];
    var more := if e.present then out + [e.dst] else out;
    forall v
      ensures v in more <==> Effective(row[..i], overlay[..j + 1], v)
    {
      NextEffective(row, overlay, i, j, v);
      EntryIsEffective(row, overlay, i, j);
      assert v in out + [e.dst] <==> v in out || v == e.dst;
    }
  }

  lemma TakeBoth(row: seq<nat>, overlay: seq<Entry>, i: nat, j: nat, out: seq<nat>)
    requires Ascending(row) && InOrder(overlay) && i < |row| && j < |overlay| && Merged(row, overlay, i, j, out)
    requires overlay[j].dst == row[i]
    ensures Merged(row, overlay, i + 1, j + 1, if overlay[j].present then out + [row[i]] else out)
  {
    var e := overlay[j];
    var more := if e.present then out + [e.dst] else out;
    forall v
      ensures v in more <==> Effective(row[..i + 1], overlay[..j + 1], v)
    {
      NextEffective(row, overlay, i, j, v);
      NextEffective(row, overlay, i + 1, j, v);
      EntryIsEffective(row, overlay, i + 1, j);
      assert v in out + [e.dst] <==> v in out || v == e.dst;
    }
  }

  /** The row as it is seen from outside, in increasing order. */
  method MaterializeRow(row: seq<nat>, overlay: seq<Entry>) returns (out: seq<nat>)
    requires Ascending(row) && InOrder(overlay)
    ensures Ascending(out) && forall v :: v in out <==> Effective(row, overlay, v)
  {
    if overlay == [] {
      return row;
    }
    out := [];
    var i, j := 0, 0;
    while i < |row| || j < |overlay|
      invariant 0 <= i <= |row| && 0 <= j <= |overlay|
      invariant Merged(row, overlay, i, j, out)
      decreases |row| - i + |overlay| - j
    {
      if j == |overlay| || (i < |row| && row[i] < overlay[j].dst) {
        TakeCompact(row, overlay, i, j, out);
        out, i := out + [row[i]], i + 1;
      } else if i == |row| || overlay[j].dst < row[i] {
        TakeEntry(row, overlay, i, j, out);
        out, j := if overlay[j].present then out + [overlay[j].dst] else out, j + 1;
      } else {
        TakeBoth(row, overlay, i, j, out);
        out, i, j := if overlay[j].present then out + [row[i]] else out, i + 1, j + 1;
      }
    }
    assert row[..i] == row && overlay[..j] == overlay;
  }

  // ---------- One direction of the store ----------

  /** Rows are kept compact, a patch standing in for its base row, and changes wait in the overlay until a row is
      compacted. Rows that were changed are listed as dirty, and the entries of every kind are counted. */
  datatype Side = Side(base: seq<seq<nat>>, patches: map<nat, seq<nat>>, delta: seq<seq<Entry>>, dirty: seq<nat>,
                       compactEdges: nat, additions: nat, deletions: nat)
  {
    function CompactRow(u: nat): seq<nat>
    {
      if u in patches then patches[u] else if u < |base| then base[u] else []
    }

    function Overlay(u: nat): seq<Entry>
    {
      if u < |delta| then delta[u] else []
    }

    function Size(): nat
    {
      additions + deletions
    }

    ghost predicate RowInOrder(u: nat)
    {
      Ascending(CompactRow(u)) && InOrder(Overlay(u))
    }

    /** Rows and overlays of n vertices, all in order. */
    ghost predicate Shaped(n: nat)
    {
      && |base| == |delta| == n && (forall u | u in patches :: u < n)
      && forall u: nat {:trigger RowInOrder(u)} :: RowInOrder(u)
    }

    ghost predicate HoldsCompact(arcs: set<Arc>)
    {
      forall u: nat, v: nat {:trigger (u, v) in arcs} :: (u, v) in arcs <==> v in CompactRow(u)
    }

    /** The arcs of the compact rows. */
    ghost function CompactArcs(): (arcs: set<Arc>)
      requires forall u | u in patches :: u < |base|
      ensures HoldsCompact(arcs)
    {
      assert HoldsCompact(set u: nat, v: nat | u < |base| && v in CompactRow(u) :: (u, v));
      var arcs :| HoldsCompact(arcs);
      arcs
    }

    ghost predicate HoldsPending(arcs: set<Arc>, present: bool)
    {
      forall u: nat, v: nat {:trigger (u, v) in arcs} :: (u, v) in arcs <==> Entry(v, present) in Overlay(u)
    }

    /** The arcs that the overlay adds, or takes away. */
    ghost function Pending(present: bool): (arcs: set<Arc>)
      ensures HoldsPending(arcs, present)
    {
      assert HoldsPending(
        set u: nat, i: nat | u < |delta| && i < |delta[u]| && delta[u][i].present == present :: (u, delta[u][i].dst),
        present);
      var arcs :| HoldsPending(arcs, present);
      arcs
    }

    ghost predicate Counted()
      requires forall u | u in patches :: u < |base|
    {
      && compactEdges == |CompactArcs()|
      && additions == |Pending(true)| && deletions == |Pending(false)|
    }

    ghost predicate Valid(n: nat)
    {
      Shaped(n) && Counted()
    }

    /** Every row with pending changes is dirty. */
    ghost predicate DirtyCovers()
    {
      forall u: nat | Overlay(u) != [] :: u in dirty
    }

    /** The arcs seen from outside. */
    ghost function Arcs(): (arcs: set<Arc>)
      requires forall u | u in patches :: u < |base|
    {
      CompactArcs() - Pending(false) + Pending(true)
    }

    /** The overlay only holds real changes. */
    ghost predicate Normalised()
      requires forall u | u in patches :: u < |base|
    {
      Pending(true) !! CompactArcs() && Pending(false) <= CompactArcs()
    }

    /** Membership in the arcs is what the row and its overlay say. */
    lemma ArcsAreEffective(n: nat, u: nat, v: nat)
      requires Shaped(n)
      ensures (u, v) in Arcs() <==> Effective(CompactRow(u), Overlay(u), v)
    {
      assert RowInOrder(u);
    }

    /** Normalised changes make the number of arcs a matter of three counters. */
    lemma CountArcs(n: nat)
      requires Valid(n) && Normalised()
      ensures |Arcs()| == compactEdges + additions - deletions
    {
      var kept := CompactArcs() - Pending(false);
      assert CompactArcs() == kept + Pending(false);
      assert Arcs() == kept + Pending(true);
    }
  }

  function EmptySide(n: nat): (s: Side)
    ensures s.Valid(n) && s.DirtyCovers() && s.Arcs() == {} && s.CompactArcs() == {} && s.Size() == 0
  {
    var s := Side(seq(n, _ => []), map[], seq(n, _ => []), [], 0, 0, 0);
    SamePairs(s.CompactArcs(), {});
    EmptyOverlays(s, true);
    EmptyOverlays(s, false);
    s
  }

  ghost predicate Agrees(s: Side, arcs: set<Arc>, compact: set<Arc>, u: nat, v: nat)
    requires forall u | u in s.patches :: u < |s.base|
  {
    && ((u, v) in arcs <==> (u, v) in s.Arcs())
    && ((u, v) in compact <==> (u, v) in s.CompactArcs())
  }

  /** A store in order, with what it holds: the arcs seen from outside and those held compact. */
  ghost predicate Stores(s: Side, n: nat, arcs: set<Arc>, compact: set<Arc>)
  {
    && s.Valid(n) && s.DirtyCovers()
    && forall u: nat, v: nat {:trigger Agrees(s, arcs, compact, u, v)} :: Agrees(s, arcs, compact, u, v)
  }

  lemma WhatIsStored(s: Side, n: nat, arcs: set<Arc>, compact: set<Arc>)
    requires Stores(s, n, arcs, compact)
    ensures s.Arcs() == arcs && s.CompactArcs() == compact
  {
    forall u: nat, v: nat
      ensures (u, v) in arcs <==> (u, v) in s.Arcs()
      ensures (u, v) in compact <==> (u, v) in s.CompactArcs()
    {
      assert Agrees(s, arcs, compact, u, v);
    }
    SamePairs(s.Arcs(), arcs);
    SamePairs(s.CompactArcs(), compact);
  }

  /** Room for more vertices. */
  function Grown(s: Side, n: nat): Side
    requires |s.base| <= n && |s.delta| <= n
  {
    s.(base := s.base + seq(n - |s.base|, _ => []), delta := s.delta + seq(n - |s.delta|, _ => []))
  }

  lemma GrownStores(s: Side, m: nat, n: nat, arcs: set<Arc>, compact: set<Arc>)
    requires Stores(s, m, arcs, compact) && m <= n
    ensures Stores(Grown(s, n), n, arcs, compact) && (s.Normalised() ==> Grown(s, n).Normalised())
  {
    var r := Grown(s, n);
    WhatIsStored(s, m, arcs, compact);
    assert forall u: nat :: r.Overlay(u) == s.Overlay(u) && r.CompactRow(u) == s.CompactRow(u);
    SamePending(s, r);
    SameOrder(s, r);
  }

  lemma SameOrder(s: Side, r: Side)
    requires forall u: nat :: r.Overlay(u) == s.Overlay(u) && r.CompactRow(u) == s.CompactRow(u)
    ensures forall u: nat :: s.RowInOrder(u) ==> r.RowInOrder(u)
  {
  }

  lemma SamePending(s: Side, r: Side)
    requires forall u: nat :: r.Overlay(u) == s.Overlay(u) && r.CompactRow(u) == s.CompactRow(u)
    ensures forall present :: r.Pending(present) == s.Pending(present)
    ensures (forall u | u in s.patches :: u < |s.base|) && (forall u | u in r.patches :: u < |r.base|) ==>
              r.CompactArcs() == s.CompactArcs()
  {
    forall present
      ensures r.Pending(present) == s.Pending(present)
    {
      SamePairs(r.Pending(present), s.Pending(present));
    }
    if (forall u | u in s.patches :: u < |s.base|) && (forall u | u in r.patches :: u < |r.base|) {
      SamePairs(r.CompactArcs(), s.CompactArcs());
    }
  }

  /** Which rows are dirty does not decide what a store holds. */
  lemma SameButDirty(s: Side, r: Side, n: nat)
    requires s.Valid(n) && r == s.(dirty := r.dirty)
    ensures r.Valid(n) && r.Arcs() == s.Arcs() && r.CompactArcs() == s.CompactArcs()
    ensures forall present :: r.Pending(present) == s.Pending(present)
    ensures forall u: nat :: r.CompactRow(u) == s.CompactRow(u) && r.Overlay(u) == s.Overlay(u)
  {
    assert forall u: nat :: r.CompactRow(u) == s.CompactRow(u) && r.Overlay(u) == s.Overlay(u);
    SamePending(s, r);
    SameOrder(s, r);
  }

  // ---------- Changing one arc ----------

  /** What the overlay of u says of v, by binary search. */
  method OverrideFor(row: seq<Entry>, v: nat) returns (seen: Option<bool>)
    requires InOrder(row)
    ensures seen == Override(row, v)
  {
    var pos := Position(row, v);
    seen := if pos < |row| && row[pos].dst == v then Some(row[pos].present) else None;
  }

  /** Only the overlay of u changed, in what it says of v. */
  ghost predicate Rewritten(s: Side, r: Side, n: nat, u: nat, v: nat, now: Option<bool>)
    requires s.Valid(n)
  {
    && r.Valid(n) && r.base == s.base && r.patches == s.patches
    && r.dirty == s.dirty && r.compactEdges == s.compactEdges && r.CompactArcs() == s.CompactArcs()
    && (forall w: nat | w != u :: r.Overlay(w) == s.Overlay(w))
    && (forall present :: r.Pending(present) ==
          if now == Some(present) then s.Pending(present) + {(u, v)} else s.Pending(present) - {(u, v)})
  }

  function Tick(now: Option<bool>, present: bool): nat
  {
    if now == Some(present) then 1 else 0
  }

  lemma PendingAt(s: Side, r: Side, u: nat, v: nat, now: Option<bool>, present: bool, x: nat, y: nat)
    requires Edited(s.Overlay(u), r.Overlay(u), v, now)
    requires forall w: nat | w != u :: r.Overlay(w) == s.Overlay(w)
    ensures (x, y) in r.Pending(present) <==>
      if x == u && y == v then now == Some(present) else (x, y) in s.Pending(present)
  {
    var e := Entry(y, present);
    assert e.dst == y;
    assert x != u ==> r.Overlay(x) == s.Overlay(x);
  }

  lemma SizeAfter(before: set<Arc>, after: set<Arc>, a: Arc, added: bool)
    requires after == if added then before + {a} else before - {a}
    ensures |after| == |before| - (if a in before then 1 else 0) + (if added then 1 else 0)
  {
  }

  /** The arcs pending with one kind of change, and how many they are. */
  lemma PendingAfter(s: Side, r: Side, u: nat, v: nat, now: Option<bool>, present: bool)
    requires Edited(s.Overlay(u), r.Overlay(u), v, now) && InOrder(s.Overlay(u))
    requires forall w: nat | w != u :: r.Overlay(w) == s.Overlay(w)
    ensures r.Pending(present) ==
      if now == Some(present) then s.Pending(present) + {(u, v)} else s.Pending(present) - {(u, v)}
    ensures |r.Pending(present)| == |s.Pending(present)| - Tick(Override(s.Overlay(u), v), present) + Tick(now, present)
  {
    var before, after := s.Pending(present), r.Pending(present);
    var want := if now == Some(present) then before + {(u, v)} else before - {(u, v)};
    forall x: nat, y: nat
      ensures (x, y) in after <==> (x, y) in want
    {
      PendingAt(s, r, u, v, now, present, x, y);
    }
    SamePairs(after, want);
    SizeAfter(before, after, (u, v), now == Some(present));
    PendingDecides(s, u, v, present);
  }

  lemma PendingDecides(s: Side, u: nat, v: nat, present: bool)
    requires InOrder(s.Overlay(u))
    ensures (u, v) in s.Pending(present) <==> Override(s.Overlay(u), v) == Some(present)
  {
  }

  /** The counters follow the row. */
  lemma RewriteRow(s: Side, n: nat, u: nat, v: nat, row: seq<Entry>, now: Option<bool>, r: Side)
    requires s.Valid(n) && u < n && Edited(s.delta[u], row, v, now)
    requires r == s.(delta := s.delta[u := row], additions := r.additions, deletions := r.deletions)
    requires r.additions == s.additions - Tick(Override(s.delta[u], v), true) + Tick(now, true)
    requires r.deletions == s.deletions - Tick(Override(s.delta[u], v), false) + Tick(now, false)
    ensures Rewritten(s, r, n, u, v, now)
  {
    RewriteKeepsRest(s, n, u, row, r);
    assert s.Overlay(u) == s.delta[u] && s.RowInOrder(u);
    PendingAfter(s, r, u, v, now, true);
    PendingAfter(s, r, u, v, now, false);
  }

  lemma RewriteKeepsRest(s: Side, n: nat, u: nat, row: seq<Entry>, r: Side)
    requires s.Shaped(n) && u < n && InOrder(row)
    requires r == s.(delta := s.delta[u := row], additions := r.additions, deletions := r.deletions)
    ensures r.Shaped(n) && r.CompactArcs() == s.CompactArcs() && r.Overlay(u) == row
    ensures forall w: nat | w != u :: r.Overlay(w) == s.Overlay(w)
  {
    assert forall w: nat :: r.CompactRow(w) == s.CompactRow(w);
    assert forall w: nat :: r.Overlay(w) == if w == u then row else s.Overlay(w);
    SamePairs(r.CompactArcs(), s.CompactArcs());
    forall w: nat
      ensures r.RowInOrder(w)
    {
      assert s.RowInOrder(w);
    }
  }

  lemma RowsAreInOrder(s: Side, n: nat, u: nat)
    requires s.Shaped(n)
    ensures Ascending(s.CompactRow(u)) && InOrder(s.Overlay(u))
    ensures u < n ==> s.Overlay(u) == s.delta[u]
  {
    assert s.RowInOrder(u);
  }

  /** Set the overlay entry of an arc. */
  method Upsert(s: Side, u: nat, v: nat, present: bool, ghost n: nat) returns (r: Side)
    requires s.Valid(n) && u < n
    ensures Rewritten(s, r, n, u, v, Some(present)) && r.Size() <= s.Size() + 1
    ensures r.Overlay(u) != []
  {
    RowsAreInOrder(s, n, u);
    var seen := OverrideFor(s.delta[u], v);
    CountersCover(s, n, u, v);
    var row := Put(s.delta[u], v, present);
    var additions, deletions := s.additions, s.deletions;
    if seen.None? {
      if present {
        additions := additions + 1;
      } else {
        deletions := deletions + 1;
      }
    } else if seen.value != present {
      if seen.value {
        additions, deletions := additions - 1, deletions + 1;
      } else {
        additions, deletions := additions + 1, deletions - 1;
      }
    }
    r := s.(delta := s.delta[u := row], additions := additions, deletions := deletions);
    RewriteRow(s, n, u, v, row, Some(present), r);
  }

  /** Counting down for an entry that is there never goes below zero. */
  lemma CountersCover(s: Side, n: nat, u: nat, v: nat)
    requires s.Valid(n) && u < n
    ensures s.additions >= Tick(Override(s.delta[u], v), true) && s.deletions >= Tick(Override(s.delta[u], v), false)
  {
    assert Override(s.delta[u], v) == Some(true) ==> (u, v) in s.Pending(true);
    assert Override(s.delta[u], v) == Some(false) ==> (u, v) in s.Pending(false);
  }

  /** Remove the overlay entry of an arc, if there is one. */
  method Erase(s: Side, u: nat, v: nat, ghost n: nat) returns (r: Side)
    requires s.Valid(n) && u < n
    ensures Rewritten(s, r, n, u, v, None) && r.Size() <= s.Size()
  {
    RowsAreInOrder(s, n, u);
    var seen := OverrideFor(s.delta[u], v);
    CountersCover(s, n, u, v);
    var row := Drop(s.delta[u], v);
    var additions, deletions := s.additions, s.deletions;
    if seen == Some(true) {
      additions := additions - 1;
    } else if seen == Some(false) {
      deletions := deletions - 1;
    }
    r := s.(delta := s.delta[u := row], additions := additions, deletions := deletions);
    RewriteRow(s, n, u, v, row, None, r);
  }

  /** Make an arc present or absent, given what the caller takes its compact row to hold. */
  method Set(s: Side, u: nat, v: nat, present: bool, basePresent: bool, ghost n: nat) returns (r: Side)
    requires s.Valid(n) && u < n
    ensures Rewritten(s, r, n, u, v, if present == basePresent then None else Some(present)) && r.Size() <= s.Size() + 1
    ensures present != basePresent ==> r.Overlay(u) != []
  {
    if present == basePresent {
      r := Erase(s, u, v, n);
    } else {
      r := Upsert(s, u, v, present, n);
    }
  }

  /** The same, unless the arc already is as wanted. */
  method SetIfChanged(s: Side, u: nat, v: nat, present: bool, basePresent: bool, ghost n: nat)
    returns (changed: bool, r: Side)
    requires s.Valid(n) && u < n
    ensures changed <==> present != match Override(s.Overlay(u), v) case Some(seen) => seen case None => basePresent
    ensures changed ==>
      Rewritten(s, r, n, u, v, if present == basePresent then None else Some(present)) && r.Size() <= s.Size() + 1
    ensures !changed ==> r == s
  {
    RowsAreInOrder(s, n, u);
    var seen := OverrideFor(s.Overlay(u), v);
    var current := if seen.Some? then seen.value else basePresent;
    changed, r := current != present, s;
    if changed {
      r := Set(s, u, v, present, basePresent, n);
    }
  }

  /** Binary search in a compact row. */
  method CompactContains(s: Side, u: nat, v: nat, ghost n: nat) returns (found: bool)
    requires s.Shaped(n)
    ensures found <==> v in s.CompactRow(u)
  {
    RowsAreInOrder(s, n, u);
    found := Member(s.CompactRow(u), v);
  }

  /** What the arcs become, when of one arc the overlay comes to say something else. */
  lemma OverlayedArcs(compact: set<Arc>, added: set<Arc>, removed: set<Arc>, added': set<Arc>, removed': set<Arc>,
                      a: Arc, now: Option<bool>)
    requires added' == if now == Some(true) then added + {a} else added - {a}
    requires removed' == if now == Some(false) then removed + {a} else removed - {a}
    ensures var arcs := compact - removed + added;
      compact - removed' + added' == if (if now.Some? then now.value else a in compact) then arcs + {a} else arcs - {a}
    ensures added !! compact && removed <= compact && (now.Some? ==> now.value != (a in compact)) ==>
      added' !! compact && removed' <= compact
  {
  }

  lemma RewrittenArcs(s: Side, r: Side, n: nat, u: nat, v: nat, now: Option<bool>)
    requires s.Valid(n) && Rewritten(s, r, n, u, v, now)
    ensures r.Arcs() == SetArc(s.Arcs(), u, v, if now.Some? then now.value else (u, v) in s.CompactArcs())
    ensures s.Normalised() && (now.Some? ==> now.value != ((u, v) in s.CompactArcs())) ==> r.Normalised()
  {
    OverlayedArcs(s.CompactArcs(), s.Pending(true), s.Pending(false), r.Pending(true), r.Pending(false), (u, v), now);
  }

  /** The row that was changed is marked dirty. */
  function Marked(s: Side, u: nat): Side
  {
    s.(dirty := s.dirty + [u])
  }

  lemma MarkedStores(s: Side, r: Side, n: nat, u: nat, v: nat, now: Option<bool>, arcs: set<Arc>, compact: set<Arc>)
    requires Stores(s, n, arcs, compact) && Rewritten(s, r, n, u, v, now)
    ensures Stores(Marked(r, u), n, SetArc(arcs, u, v, if now.Some? then now.value else (u, v) in compact), compact)
    ensures s.Normalised() && (now.Some? ==> now.value != ((u, v) in compact)) ==> Marked(r, u).Normalised()
  {
    WhatIsStored(s, n, arcs, compact);
    RewrittenArcs(s, r, n, u, v, now);
    var t := Marked(r, u);
    SameButDirty(r, t, n);
    forall w: nat | t.Overlay(w) != []
      ensures w in t.dirty
    {
      assert w != u ==> r.Overlay(w) == s.Overlay(w);
    }
  }

  // ---------- Compaction ----------

  ghost function RowOf(u: nat, row: seq<nat>): (arcs: set<Arc>)
    ensures forall x: nat, y: nat {:trigger (x, y) in arcs} :: (x, y) in arcs <==> x == u && y in row
  {
    set v | v in row :: (u, v)
  }

  lemma {:induction false} RowOfSize(u: nat, row: seq<nat>)
    requires Ascending(row)
    ensures |RowOf(u, row)| == |row|
  {
    if row == [] {
      assert RowOf(u, row) == {};
    } else {
      var last := |row| - 1;
      RowOfSize(u, row[..last]);
      assert row == row[..last] + [row[last]];
      assert row[last] !in row[..last];
      SamePairs(RowOf(u, row), RowOf(u, row[..last]) + {(u, row[last])});
    }
  }

  /** The entries of one kind in an overlay row of u. */
  ghost function EntriesOf(u: nat, row: seq<Entry>, present: bool): (arcs: set<Arc>)
    ensures forall x: nat, y: nat {:trigger (x, y) in arcs} :: (x, y) in arcs <==> x == u && Entry(y, present) in row
  {
    set e | e in row && e.present == present :: (u, e.dst)
  }

  lemma NextEntry(u: nat, row: seq<Entry>, i: nat, present: bool)
    requires InOrder(row) && i < |row|
    ensures |EntriesOf(u, row[..i + 1], present)| ==
      |EntriesOf(u, row[..i], present)| + if row[i].present == present then 1 else 0
  {
    var before, after := EntriesOf(u, row[..i], present), EntriesOf(u, row[..i + 1], present);
    var e := row[i];
    EarlierEntries(row, i);
    var grown := if e.present == present then before + {(u, e.dst)} else before;
    forall x: nat, v: nat
      ensures (x, v) in after <==> (x, v) in grown
    {
      assert Entry(v, present) in row[..i + 1] <==> Entry(v, present) in row[..i] || Entry(v, present) == e;
    }
    SamePairs(after, grown);
    assert (u, e.dst) !in before;
  }

  lemma EarlierEntries(row: seq<Entry>, i: nat)
    requires InOrder(row) && i < |row|
    ensures forall e :: e in row[..i + 1] <==> e in row[..i] || e == row[i]
    ensures forall present :: Entry(row[i].dst, present) !in row[..i]
  {
    assert row[..i + 1] == row[..i] + [row[i]];
  }

  /** Count down for every entry of a row that is dropped. */
  method Discount(s: Side, u: nat, ghost n: nat) returns (additions: nat, deletions: nat)
    requires s.Valid(n)
    ensures additions == s.additions - |EntriesOf(u, s.Overlay(u), true)|
    ensures deletions == s.deletions - |EntriesOf(u, s.Overlay(u), false)|
  {
    additions, deletions := s.additions, s.deletions;
    RowsAreInOrder(s, n, u);
    var row := s.Overlay(u);
    var i := 0;
    assert EntriesOf(u, row[..0], true) == {} && EntriesOf(u, row[..0], false) == {};
    while i < |row|
      invariant 0 <= i <= |row|
      invariant additions == s.additions - |EntriesOf(u, row[..i], true)|
      invariant deletions == s.deletions - |EntriesOf(u, row[..i], false)|
    {
      NextEntry(u, row, i, true);
      NextEntry(u, row, i, false);
      EntriesArePending(s, n, u, i + 1);
      if row[i].present {
        additions := additions - 1;
      } else {
        deletions := deletions - 1;
      }
      i := i + 1;
    }
    assert row[..i] == row;
  }

  lemma EntriesArePending(s: Side, n: nat, u: nat, i: nat)
    requires s.Valid(n) && i <= |s.Overlay(u)|
    ensures |EntriesOf(u, s.Overlay(u)[..i], true)| <= s.additions
    ensures |EntriesOf(u, s.Overlay(u)[..i], false)| <= s.deletions
  {
    forall present
      ensures |EntriesOf(u, s.Overlay(u)[..i], present)| <= |s.Pending(present)|
    {
      var some, all := EntriesOf(u, s.Overlay(u)[..i], present), s.Pending(present);
      assert some <= all by {
        forall a | a in some
          ensures a in all
        {
          assert a == (a.0, a.1);
        }
      }
      assert all == some + (all - some);
    }
  }

  /** A row that has taken in its overlay. */
  ghost predicate Folded(s: Side, r: Side, u: nat)
  {
    r.Overlay(u) == [] && forall v: nat :: v in r.CompactRow(u) <==> Effective(s.CompactRow(u), s.Overlay(u), v)
  }

  ghost predicate Untouched(s: Side, r: Side, u: nat)
  {
    r.CompactRow(u) == s.CompactRow(u) && r.Overlay(u) == s.Overlay(u)
  }

  ghost predicate RowAfter(s: Side, r: Side, rows: set<nat>, u: nat)
  {
    if u in rows then Folded(s, r, u) else Untouched(s, r, u)
  }

  /** The listed rows have taken in their overlays, the others are as they were; nothing is different from outside. */
  ghost predicate RowsFolded(s: Side, r: Side, n: nat, rows: set<nat>)
    requires s.Valid(n)
  {
    && r.Valid(n) && r.Arcs() == s.Arcs() && r.additions <= s.additions && r.deletions <= s.deletions
    && forall u: nat {:trigger RowAfter(s, r, rows, u)} :: RowAfter(s, r, rows, u)
  }

  lemma NothingFolded(s: Side, n: nat)
    requires s.Valid(n)
    ensures RowsFolded(s, s, n, {})
  {
  }

  lemma FoldOneMore(s: Side, r: Side, t: Side, n: nat, rows: set<nat>, u: nat)
    requires s.Valid(n) && RowsFolded(s, r, n, rows) && u !in rows && RowsFolded(r, t, n, {u})
    ensures RowsFolded(s, t, n, rows + {u})
  {
    forall w: nat
      ensures RowAfter(s, t, rows + {u}, w)
    {
      assert RowAfter(s, r, rows, w) && RowAfter(r, t, {u}, w);
    }
  }

  lemma FoldPending(s: Side, r: Side, u: nat, present: bool)
    requires r.Overlay(u) == [] && forall w: nat | w != u :: Untouched(s, r, w)
    ensures r.Pending(present) == s.Pending(present) - EntriesOf(u, s.Overlay(u), present)
    ensures |r.Pending(present)| == |s.Pending(present)| - |EntriesOf(u, s.Overlay(u), present)|
  {
    var gone := EntriesOf(u, s.Overlay(u), present);
    forall x: nat, y: nat
      ensures (x, y) in r.Pending(present) <==> (x, y) in s.Pending(present) - gone
      ensures (x, y) in gone ==> (x, y) in s.Pending(present)
    {
      assert x != u ==> Untouched(s, r, x);
    }
    SamePairs(r.Pending(present), s.Pending(present) - gone);
    assert gone <= s.Pending(present) by {
      forall a | a in gone
        ensures a in s.Pending(present)
      {
        assert a == (a.0, a.1);
      }
    }
    assert s.Pending(present) == (s.Pending(present) - gone) + gone;
  }

  lemma FoldCompact(s: Side, r: Side, n: nat, u: nat)
    requires s.Shaped(n) && r.Shaped(n)
    requires forall w: nat | w != u :: Untouched(s, r, w)
    ensures |r.CompactArcs()| == |s.CompactArcs()| - |s.CompactRow(u)| + |r.CompactRow(u)|
  {
    var old0, new0 := RowOf(u, s.CompactRow(u)), RowOf(u, r.CompactRow(u));
    var rest := s.CompactArcs() - old0;
    RowsAreInOrder(s, n, u);
    RowsAreInOrder(r, n, u);
    RowOfSize(u, s.CompactRow(u));
    RowOfSize(u, r.CompactRow(u));
    forall x: nat, y: nat
      ensures (x, y) in r.CompactArcs() <==> (x, y) in rest + new0
      ensures (x, y) in rest + old0 <==> (x, y) in s.CompactArcs()
    {
      assert x != u ==> Untouched(s, r, x);
    }
    SamePairs(r.CompactArcs(), rest + new0);
    SamePairs(s.CompactArcs(), rest + old0);
    assert rest !! new0 by {
      forall a | a in rest
        ensures a !in new0
      {
        assert a == (a.0, a.1);
      }
    }
  }

  lemma FoldArcs(s: Side, r: Side, n: nat, u: nat)
    requires s.Shaped(n) && r.Shaped(n) && Folded(s, r, u) && forall w: nat | w != u :: Untouched(s, r, w)
    ensures r.Arcs() == s.Arcs()
  {
    forall x: nat, y: nat
      ensures (x, y) in r.Arcs() <==> (x, y) in s.Arcs()
    {
      r.ArcsAreEffective(n, x, y);
      s.ArcsAreEffective(n, x, y);
      assert x != u ==> Untouched(s, r, x);
    }
    SamePairs(r.Arcs(), s.Arcs());
  }

  method CompactOneRow(s: Side, u: nat, ghost n: nat) returns (r: Side)
    requires s.Valid(n)
    ensures RowsFolded(s, r, n, {u}) && r.dirty == s.dirty && (s.Overlay(u) == [] ==> r == s)
  {
    if s.Overlay(u) == [] {
      return s;
    }
    var oldSize := |s.CompactRow(u)|;
    RowsAreInOrder(s, n, u);
    var merged := MaterializeRow(s.CompactRow(u), s.Overlay(u));
    var additions, deletions := Discount(s, u, n);
    var shape := s.(patches := s.patches[u := merged], delta := s.delta[u := []]);
    FoldShape(s, shape, n, u, merged);
    FoldCompact(s, shape, n, u);
    r := shape.(compactEdges := s.compactEdges - oldSize + |merged|, additions := additions, deletions := deletions);
    FoldCounts(s, shape, r, n, u);
  }

  /** The counters of a folded store are right, since the counters do not decide what a store holds. */
  lemma FoldCounts(s: Side, shape: Side, r: Side, n: nat, u: nat)
    requires s.Valid(n) && shape.Shaped(n) && Folded(s, shape, u) && forall w: nat | w != u :: Untouched(s, shape, w)
    requires r == shape.(compactEdges := r.compactEdges, additions := r.additions, deletions := r.deletions)
    requires r.compactEdges == |shape.CompactArcs()|
    requires r.additions == s.additions - |EntriesOf(u, s.Overlay(u), true)|
    requires r.deletions == s.deletions - |EntriesOf(u, s.Overlay(u), false)|
    ensures RowsFolded(s, r, n, {u})
  {
    SameRows(shape, r, n);
    assert r.Counted() by {
      FoldPending(s, shape, u, true);
      FoldPending(s, shape, u, false);
    }
    assert r.Arcs() == s.Arcs() by {
      FoldArcs(s, shape, n, u);
    }
    assert forall w: nat :: RowAfter(s, r, {u}, w) by {
      RowsOfShape(s, shape, r, u);
    }
  }

  lemma RowsOfShape(s: Side, shape: Side, r: Side, u: nat)
    requires Folded(s, shape, u) && forall w: nat | w != u :: Untouched(s, shape, w)
    requires forall w: nat :: r.CompactRow(w) == shape.CompactRow(w) && r.Overlay(w) == shape.Overlay(w)
    ensures forall w: nat :: RowAfter(s, r, {u}, w)
  {
    forall w: nat
      ensures RowAfter(s, r, {u}, w)
    {
      assert w != u ==> Untouched(s, shape, w);
    }
  }

  lemma FoldShape(s: Side, r: Side, n: nat, u: nat, merged: seq<nat>)
    requires s.Shaped(n) && u < n && Ascending(merged)
    requires r == s.(patches := s.patches[u := merged], delta := s.delta[u := []])
    ensures r.Shaped(n) && r.Overlay(u) == [] && r.CompactRow(u) == merged
    ensures forall w: nat | w != u :: Untouched(s, r, w)
  {
    assert forall w: nat :: r.CompactRow(w) == if w == u then merged else s.CompactRow(w);
    assert forall w: nat :: r.Overlay(w) == if w == u then [] else s.Overlay(w);
    forall w: nat
      ensures r.RowInOrder(w)
    {
      assert s.RowInOrder(w);
    }
  }

  lemma SameRows(s: Side, r: Side, n: nat)
    requires s.Shaped(n) && r == s.(compactEdges := r.compactEdges, additions := r.additions, deletions := r.deletions)
    ensures r.Shaped(n) && r.CompactArcs() == s.CompactArcs() && r.Arcs() == s.Arcs()
    ensures forall present :: r.Pending(present) == s.Pending(present)
    ensures forall u: nat :: r.CompactRow(u) == s.CompactRow(u) && r.Overlay(u) == s.Overlay(u)
  {
    assert forall u: nat :: r.CompactRow(u) == s.CompactRow(u) && r.Overlay(u) == s.Overlay(u);
    SamePending(s, r);
    SameOrder(s, r);
  }

  lemma FoldedAt(s: Side, r: Side, n: nat, rows: set<nat>, u: nat, v: nat)
    requires s.Valid(n) && RowsFolded(s, r, n, rows)
    ensures (u, v) in r.CompactArcs() <==> (u, v) in if u in rows then s.Arcs() else s.CompactArcs()
    ensures forall present :: (u, v) in r.Pending(present) <==> u !in rows && (u, v) in s.Pending(present)
  {
    s.ArcsAreEffective(n, u, v);
    assert RowAfter(s, r, rows, u);
  }

  /** Which arcs are compact once some rows have been folded. */
  lemma FoldedArcs(s: Side, r: Side, n: nat, rows: set<nat>)
    requires s.Valid(n) && RowsFolded(s, r, n, rows)
    ensures forall u: nat, v: nat ::
      (u, v) in r.CompactArcs() <==> (u, v) in if u in rows then s.Arcs() else s.CompactArcs()
    ensures s.Normalised() ==> r.Normalised()
  {
    forall u: nat, v: nat
      ensures (u, v) in r.CompactArcs() <==> (u, v) in if u in rows then s.Arcs() else s.CompactArcs()
    {
      FoldedAt(s, r, n, rows, u, v);
    }
    if s.Normalised() {
      forall present, a: Arc | a in r.Pending(present)
        ensures a in r.CompactArcs() <==> !present
      {
        FoldedAt(s, r, n, rows, a.0, a.1);
        assert a == (a.0, a.1);
      }
    }
  }

  lemma NothingPending(r: Side, n: nat)
    requires r.Valid(n) && r.Pending(true) == {} && r.Pending(false) == {}
    ensures r.CompactArcs() == r.Arcs() && r.Size() == 0
  {
  }

  lemma EmptyOverlays(r: Side, present: bool)
    requires forall u: nat :: r.Overlay(u) == []
    ensures r.Pending(present) == {}
  {
    SamePairs(r.Pending(present), {});
  }

  /** Once every row with pending changes has been folded, the compact rows are the arcs. */
  lemma AllFolded(s: Side, r: Side, n: nat, rows: set<nat>)
    requires s.Valid(n) && RowsFolded(s, r, n, rows) && forall u: nat | s.Overlay(u) != [] :: u in rows
    ensures r.CompactArcs() == r.Arcs() && r.Size() == 0
  {
    assert r.Pending(true) == {} && r.Pending(false) == {} by {
      forall u: nat
        ensures r.Overlay(u) == []
      {
        assert RowAfter(s, r, rows, u);
      }
      EmptyOverlays(r, true);
      EmptyOverlays(r, false);
    }
    NothingPending(r, n);
  }

  /** Compact every dirty row. */
  method CompactMarkedRows(s: Side, ghost n: nat) returns (r: Side)
    requires s.Valid(n)
    ensures RowsFolded(s, r, n, Elements(s.dirty)) && r.dirty == []
  {
    var rows := DirtyRows(s.dirty);
    r := s;
    NothingFolded(s, n);
    var i := 0;
    while i < |rows|
      invariant 0 <= i <= |rows|
      invariant RowsFolded(s, r, n, Elements(rows[..i]))
    {
      r := FoldNext(s, r, n, rows, i);
      i := i + 1;
    }
    ghost var last := r;
    r := r.(dirty := []);
    SameShape(s, last, r, n, Elements(s.dirty));
  }

  /** Sort the dirty rows and drop repeats. */
  method DirtyRows(dirty: seq<nat>) returns (rows: seq<nat>)
    ensures Ascending(rows) && Elements(rows) == Elements(dirty)
    ensures Elements(rows[..0]) == {} && rows[..|rows|] == rows
  {
    rows := SortUniqueRow(dirty);
  }

  method FoldNext(ghost s: Side, r0: Side, ghost n: nat, rows: seq<nat>, i: nat) returns (r: Side)
    requires s.Valid(n) && Ascending(rows) && i < |rows| && RowsFolded(s, r0, n, Elements(rows[..i]))
    ensures RowsFolded(s, r, n, Elements(rows[..i + 1]))
  {
    NextRow(rows, i);
    r := CompactOneRow(r0, rows[i], n);
    FoldOneMore(s, r0, r, n, Elements(rows[..i]), rows[i]);
  }

  lemma NextRow(rows: seq<nat>, i: nat)
    requires Ascending(rows) && i < |rows|
    ensures rows[i] !in Elements(rows[..i])
    ensures Elements(rows[..i + 1]) == Elements(rows[..i]) + {rows[i]}
  {
    assert rows[..i + 1] == rows[..i] + [rows[i]];
  }

  lemma SameShape(s: Side, last: Side, r: Side, n: nat, rows: set<nat>)
    requires s.Valid(n) && RowsFolded(s, last, n, rows) && r == last.(dirty := r.dirty)
    ensures RowsFolded(s, r, n, rows)
  {
    SameButDirty(last, r, n);
    forall u: nat
      ensures RowAfter(s, r, rows, u)
    {
      assert RowAfter(s, last, rows, u);
    }
  }

  /** A row is worth compacting when its overlay is large against the row, which counts for at least 8. */
  predicate Dense(row: seq<nat>, overlay: seq<Entry>, threshold: real)
  {
    overlay != [] && |overlay| as real / Max(8, |row|) as real >= threshold
  }

  /** A row has pending changes, at least the given share of its compact entries, counted as eight if they are fewer. */
  predicate AtDensity(pending: nat, compact: nat, threshold: real)
  {
    pending > 0 && pending as real >= threshold * Max(8, compact) as real
  }

  lemma DenseMeaning(row: seq<nat>, overlay: seq<Entry>, threshold: real)
    ensures Dense(row, overlay, threshold) <==> AtDensity(|overlay|, |row|, threshold)
  {
    QuotientAtLeast(|overlay| as real, Max(8, |row|) as real, threshold);
  }

  lemma QuotientAtLeast(x: real, y: real, z: real)
    requires y > 0.0
    ensures x / y >= z <==> x >= z * y
  {
    var q := x / y;
    assert q * y == x;
    if q >= z {
      NotNegative(q - z, y);
    } else {
      Positive(z - q, y);
    }
  }

  lemma NotNegative(x: real, y: real)
    requires x >= 0.0 && y >= 0.0
    ensures x * y >= 0.0
  {
  }

  lemma Positive(x: real, y: real)
    requires x > 0.0 && y > 0.0
    ensures x * y > 0.0
  {
  }

  ghost function DenseRows(s: Side, threshold: real): set<nat>
  {
    set u | u in s.dirty && AtDensity(|s.Overlay(u)|, |s.CompactRow(u)|, threshold)
  }

  /** The dirty rows seen so far are folded if they are dense, and pending if they are not but have changes. */
  ghost predicate Sifted(s: Side, r: Side, n: nat, threshold: real, seen: set<nat>, done: set<nat>, pending: seq<nat>)
    requires s.Valid(n)
  {
    && RowsFolded(s, r, n, done) && (done == {} ==> r == s)
    && (forall u :: u in done <==> u in seen && AtDensity(|s.Overlay(u)|, |s.CompactRow(u)|, threshold))
    && (forall u | u in seen && s.Overlay(u) != [] :: u in done || u in pending)
  }

  /** Compact a row if it is dense, else keep it pending if it has changes. */
  method SiftRow(ghost s: Side, r0: Side, ghost n: nat, threshold: real, ghost seen: set<nat>, ghost done0: set<nat>,
                 pending0: seq<nat>, u: nat)
    returns (r: Side, ghost done: set<nat>, pending: seq<nat>, dense: bool)
    requires s.Valid(n) && Sifted(s, r0, n, threshold, seen, done0, pending0) && u !in seen
    ensures Sifted(s, r, n, threshold, seen + {u}, done, pending)
    ensures dense <==> done != done0
    ensures done0 <= done
  {
    r, done, pending, dense := r0, done0, pending0, false;
    assert u !in done0 && RowAfter(s, r0, done0, u);
    DenseMeaning(r0.CompactRow(u), r0.Overlay(u), threshold);
    if r0.Overlay(u) != [] {
      if !Dense(r0.CompactRow(u), r0.Overlay(u), threshold) {
        pending := pending + [u];
      } else {
        r := CompactOneRow(r0, u, n);
        FoldOneMore(s, r0, r, n, done0, u);
        done, dense := done0 + {u}, true;
      }
    }
  }

  /** Compact the dirty rows that are dense, and keep the others with pending changes dirty. */
  method CompactDenseRows(s: Side, threshold: real, ghost n: nat) returns (compacted: bool, r: Side)
    requires s.Valid(n)
    ensures RowsFolded(s, r, n, DenseRows(s, threshold))
    ensures s.DirtyCovers() ==> r.DirtyCovers()
    ensures compacted <==> DenseRows(s, threshold) != {}
    ensures !compacted ==> r == s.(dirty := r.dirty)
  {
    var rows := DirtyRows(s.dirty);
    compacted, r := false, s;
    var pending: seq<nat> := [];
    ghost var done: set<nat> := {};
    NothingFolded(s, n);
    var i := 0;
    while i < |rows|
      invariant 0 <= i <= |rows|
      invariant Sifted(s, r, n, threshold, Elements(rows[..i]), done, pending)
      invariant compacted <==> done != {}
    {
      NextRow(rows, i);
      var dense;
      r, done, pending, dense := SiftRow(s, r, n, threshold, Elements(rows[..i]), done, pending, rows[i]);
      compacted := compacted || dense;
      i := i + 1;
    }
    ghost var last := r;
    r := r.(dirty := pending);
    SiftedAll(s, last, r, n, threshold, done, pending);
  }

  lemma SiftedAll(s: Side, last: Side, r: Side, n: nat, threshold: real, done: set<nat>, pending: seq<nat>)
    requires s.Valid(n) && Sifted(s, last, n, threshold, Elements(s.dirty), done, pending)
    requires r == last.(dirty := pending)
    ensures RowsFolded(s, r, n, done) && done == DenseRows(s, threshold)
    ensures s.DirtyCovers() ==> r.DirtyCovers()
  {
    SameShape(s, last, r, n, done);
    if s.DirtyCovers() {
      forall u: nat | r.Overlay(u) != []
        ensures u in pending
      {
        assert RowAfter(s, r, done, u);
      }
    }
  }
}
