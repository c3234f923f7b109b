/** Choosing a bounded sample of a graph by its smallest edge keys, and renumbering the chosen vertices. */
module Sampling {
  import opened Collections
  import opened Distances
  import opened Csr
  import opened SortedRows

  /** Vertex identifiers in a source file are arbitrary integers. */
  type Edge = (int, int)

  // ---------- The smallest edges ----------

  /** `kept` holds as many of the offered edges as fit, counted with repetition, and none of those left out has a
      smaller key. */
  ghost predicate Smallest(kept: multiset<Edge>, offered: multiset<Edge>, limit: nat, key: Edge -> nat)
  {
    && kept <= offered
    && |kept| == (if |offered| < limit then |offered| else limit)
    && forall x, y | x in kept && y in offered - kept :: key(x) <= key(y)
  }

  lemma SubsetBySize(a: multiset<Edge>, b: multiset<Edge>)
    requires a <= b && |a| >= |b|
    ensures a == b
  {
    assert b == a + (b - a);
    assert |b - a| == 0;
  }

  lemma MoreOfOne(a: multiset<Edge>, b: multiset<Edge>) returns (x: Edge)
    requires |a| == |b| && a != b
    ensures a[x] > b[x]
  {
    if forall x :: a[x] <= b[x] {
      SubsetBySize(a, b);
      assert false;
    }
    x :| a[x] > b[x];
  }

  /** With an injective key there is only one such choice. */
  lemma SmallestIsUnique(a: multiset<Edge>, b: multiset<Edge>, offered: multiset<Edge>, limit: nat, key: Edge -> nat)
    requires Smallest(a, offered, limit, key) && Smallest(b, offered, limit, key)
    requires forall x, y | x in offered && y in offered && key(x) == key(y) :: x == y
    ensures a == b
  {
    if a != b {
      var x := MoreOfOne(a, b);
      var y := MoreOfOne(b, a);
      assert false;
    }
  }

  /** The heap's first item, the one with the largest key. */
  method Largest(heap: multiset<Edge>, key: Edge -> nat) returns (top: Edge)
    requires heap != multiset{}
    ensures top in heap && forall e | e in heap :: key(e) <= key(top)
  {
    top :| top in heap;
    var unseen := heap - multiset{top};
    while unseen != multiset{}
      invariant unseen <= heap && top in heap
      invariant forall e | e in heap :: key(e) <= key(top) || e in unseen
      decreases |unseen|
    {
      var e :| e in unseen;
      unseen := unseen - multiset{e};
      if key(e) > key(top) {
        top := e;
      }
    }
  }

  function Offer(offered: multiset<Edge>, e: Edge): multiset<Edge>
  {
    if e.0 == e.1 then offered else offered + multiset{e}
  }

  /** Offer one edge to the sample; self-loops are passed over. */
  method KeepSmallest(heap0: multiset<Edge>, limit: nat, key: Edge -> nat, e: Edge, ghost offered: multiset<Edge>)
    returns (heap: multiset<Edge>)
    requires limit > 0 && Smallest(heap0, offered, limit, key)
    ensures Smallest(heap, Offer(offered, e), limit, key)
  {
    heap := heap0;
    if e.0 == e.1 {
      return;
    }
    if |heap| < limit {
      SubsetBySize(heap, offered);
      heap := heap + multiset{e};
      assert Offer(offered, e) - heap == multiset{};
    } else {
      var top := Largest(heap, key);
      if key(e) < key(top) {
        heap := heap - multiset{top} + multiset{e};
        Replaced(heap0, limit, key, e, top, offered);
      } else {
        PassedOver(heap0, limit, key, e, top, offered);
      }
    }
  }

  lemma Replaced(heap: multiset<Edge>, limit: nat, key: Edge -> nat, e: Edge, top: Edge, offered: multiset<Edge>)
    requires Smallest(heap, offered, limit, key) && |heap| == limit > 0
    requires top in heap && (forall x | x in heap :: key(x) <= key(top)) && key(e) < key(top)
    ensures Smallest(heap - multiset{top} + multiset{e}, offered + multiset{e}, limit, key)
  {
    var heap', offered' := heap - multiset{top} + multiset{e}, offered + multiset{e};
    forall x, y | x in heap' && y in offered' - heap'
      ensures key(x) <= key(y)
    {
      assert x in heap || x == e;
      assert y in offered - heap || y == top;
    }
  }

  lemma PassedOver(heap: multiset<Edge>, limit: nat, key: Edge -> nat, e: Edge, top: Edge, offered: multiset<Edge>)
    requires Smallest(heap, offered, limit, key) && |heap| == limit > 0
    requires top in heap && (forall x | x in heap :: key(x) <= key(top)) && key(top) <= key(e)
    ensures Smallest(heap, offered + multiset{e}, limit, key)
  {
    forall x, y | x in heap && y in offered + multiset{e} - heap
      ensures key(x) <= key(y)
    {
      assert y in offered - heap || y == e;
    }
  }

  // ---------- A whole file ----------

  /** A line, stripped and split at white space. */
  type Line = seq<string>

  datatype SampleError = TooFewColumns(line: nat) | NotANumber | NoUsableEdges

  /** A line with columns that is no comment. */
  ghost predicate IsData(line: Line)
  {
    |line| >= 1 && line[0] != "" && line[0][0] !in {'#', '%'}
  }

  predicate Skipped(line: Line)
  {
    line == [] || line[0] == [] || line[0][0] == '#' || line[0][0] == '%'
  }

  /** A data line without two numbers in its first two columns. */
  ghost predicate Malformed(line: Line, number: string -> Option<int>)
  {
    IsData(line) && (|line| < 2 || number(line[0]) == None || number(line[1]) == None)
  }

  /** The edges of the data lines, the first two columns of each. */
  ghost function RowsIn(lines: seq<Line>, number: string -> Option<int>): seq<Edge>
  {
    if lines == [] then []
    else
      var before, line := RowsIn(lines[..|lines| - 1], number), lines[|lines| - 1];
      if !IsData(line) || Malformed(line, number) then before
      else before + [(number(line[0]).value, number(line[1]).value)]
  }

  ghost function UsedLines(lines: seq<Line>): nat
  {
    if lines == [] then 0 else UsedLines(lines[..|lines| - 1]) + if IsData(lines[|lines| - 1]) then 1 else 0
  }

  /** There is a row for every data line, in order: its first column followed by its second. */
  ghost predicate RowsAreColumns(lines: seq<Line>, number: string -> Option<int>, rows: seq<Edge>)
  {
    && |rows| == UsedLines(lines)
    && forall i: nat | i < |lines| && IsData(lines[i]) :: RowOf(lines, number, rows, i)
  }

  ghost predicate RowOf(lines: seq<Line>, number: string -> Option<int>, rows: seq<Edge>, i: nat)
    requires i < |lines|
  {
    var k := UsedLines(lines[..i]);
    && k < |rows| && |lines[i]| >= 2
    && number(lines[i][0]) == Some(rows[k].0) && number(lines[i][1]) == Some(rows[k].1)
  }

  lemma {:induction false} RowsInAreColumns(lines: seq<Line>, number: string -> Option<int>)
    requires forall line | line in lines :: !Malformed(line, number)
    ensures RowsAreColumns(lines, number, RowsIn(lines, number))
  {
    if lines != [] {
      var last := |lines| - 1;
      RowsInAreColumns(lines[..last], number);
      assert lines[last] in lines;
      forall i: nat | i < |lines| && IsData(lines[i])
        ensures RowOf(lines, number, RowsIn(lines, number), i)
      {
        if i < last {
          assert RowOf(lines[..last], number, RowsIn(lines[..last], number), i);
          assert lines[..last][..i] == lines[..i];
        }
      }
    }
  }

  /** Where reading stops: the first malformed line, if there is one. */
  ghost predicate FirstMalformed(lines: seq<Line>, number: string -> Option<int>, i: nat)
  {
    && i < |lines| && Malformed(lines[i], number)
    && forall j | 0 <= j < i :: !Malformed(lines[j], number)
  }

  /** Every edge a file offers; an undirected row is offered in both directions. */
  function Offered(rows: seq<Edge>, directed: bool): multiset<Edge>
  {
    if rows == [] then multiset{}
    else
      var e := rows[|rows| - 1];
      var once := Offer(Offered(rows[..|rows| - 1], directed), e);
      if directed then once else Offer(once, (e.1, e.0))
  }

  lemma {:induction false} OfferedCount(rows: seq<Edge>, directed: bool, e: Edge)
    ensures Offered(rows, directed)[e] ==
      if e.0 == e.1 then 0 else multiset(rows)[e] + if directed then 0 else multiset(rows)[(e.1, e.0)]
  {
    if rows != [] {
      var last := |rows| - 1;
      OfferedCount(rows[..last], directed, e);
      RowsCount(rows, e);
      RowsCount(rows, (e.1, e.0));
      OfferCount(Offered(rows[..last], directed), rows[last], e);
      OfferCount(Offer(Offered(rows[..last], directed), rows[last]), (rows[last].1, rows[last].0), e);
    }
  }

  lemma RowsCount(rows: seq<Edge>, e: Edge)
    requires rows != []
    ensures multiset(rows)[e] == multiset(rows[..|rows| - 1])[e] + if rows[|rows| - 1] == e then 1 else 0
  {
    assert rows == rows[..|rows| - 1] + [rows[|rows| - 1]];
  }

  lemma OfferCount(offered: multiset<Edge>, x: Edge, e: Edge)
    ensures Offer(offered, x)[e] == offered[e] + if x == e && e.0 != e.1 then 1 else 0
  {
  }

  /** Read one line. A missing column is reported with the line's number, counted from 1. */
  function ReadLine(line: Line, lineNumber: nat, number: string -> Option<int>): Result<Edge, SampleError>
    requires !Skipped(line)
  {
    if |line| < 2 then Failure(TooFewColumns(lineNumber))
    else
      match (number(line[0]), number(line[1]))
      case (Some(u), Some(v)) => Success((u, v))
      case _ => Failure(NotANumber)
  }

  /** One edge offered, in both directions when undirected. */
  method OfferRow(heap0: multiset<Edge>, e: Edge, directed: bool, limit: nat, key: Edge -> nat, ghost rows: seq<Edge>)
    returns (heap: multiset<Edge>)
    requires limit > 0 && Smallest(heap0, Offered(rows, directed), limit, key)
    ensures Smallest(heap, Offered(rows + [e], directed), limit, key)
  {
    ghost var offered := Offered(rows, directed);
    assert (rows + [e])[..|rows|] == rows;
    heap := KeepSmallest(heap0, limit, key, e, offered);
    if !directed {
      heap := KeepSmallest(heap, limit, key, (e.1, e.0), Offer(offered, e));
    }
  }

  /** What a whole file gives: the error of its first malformed line, an error when no row has two different
      endpoints, and otherwise the edges kept and the number of rows read. */
  ghost predicate Sampled(lines: seq<Line>, directed: bool, limit: nat, key: Edge -> nat, number: string -> Option<int>,
                          r: Result<(set<Edge>, nat), SampleError>, kept: multiset<Edge>)
  {
    var rows := RowsIn(lines, number);
    && (forall i: nat | FirstMalformed(lines, number, i) ::
          r == Failure(if |lines[i]| < 2 then TooFewColumns(i + 1) else NotANumber))
    && ((forall line | line in lines :: !Malformed(line, number)) ==>
          && RowsAreColumns(lines, number, rows)
          && Smallest(kept, Offered(rows, directed), limit, key)
          && (r == Failure(NoUsableEdges) <==> forall e | e in rows :: e.0 == e.1)
          && (r.Failure? ==> r == Failure(NoUsableEdges))
          && (r.Success? ==> r.value.1 == |rows| && forall e :: e in r.value.0 <==> e in kept))
  }

  lemma RowsStep(lines: seq<Line>, number: string -> Option<int>, i: nat)
    requires i < |lines| && !Malformed(lines[i], number)
    ensures var before := RowsIn(lines[..i], number);
            RowsIn(lines[..i + 1], number) ==
              if IsData(lines[i]) then before + [(number(lines[i][0]).value, number(lines[i][1]).value)] else before
  {
    assert lines[..i + 1][..i] == lines[..i];
  }

  /** The lines before i are read: none of them is malformed. */
  ghost predicate ReadUpTo(lines: seq<Line>, number: string -> Option<int>, i: nat, directed: bool, limit: nat,
                           key: Edge -> nat, heap: multiset<Edge>, rows: nat)
  {
    && i <= |lines| && (forall j | 0 <= j < i :: !Malformed(lines[j], number))
    && rows == |RowsIn(lines[..i], number)|
    && Smallest(heap, Offered(RowsIn(lines[..i], number), directed), limit, key)
  }

  /** Read one line: skipped, refused, or offered. */
  method TakeLine(lines: seq<Line>, i: nat, directed: bool, limit: nat, key: Edge -> nat, number: string -> Option<int>,
                  heap0: multiset<Edge>, rows0: nat)
    returns (refused: Option<SampleError>, heap: multiset<Edge>, rows: nat)
    requires limit > 0 && i < |lines| && ReadUpTo(lines, number, i, directed, limit, key, heap0, rows0)
    ensures refused == None ==> ReadUpTo(lines, number, i + 1, directed, limit, key, heap, rows)
    ensures refused.Some? ==>
      && FirstMalformed(lines, number, i)
      && refused.value == if |lines[i]| < 2 then TooFewColumns(i + 1) else NotANumber
  {
    refused, heap, rows := None, heap0, rows0;
    if Skipped(lines[i]) {
      RowsStep(lines, number, i);
      return;
    }
    var row := ReadLine(lines[i], i + 1, number);
    if row.Failure? {
      return Some(row.error), heap, rows;
    }
    RowsStep(lines, number, i);
    rows := rows + 1;
    heap := OfferRow(heap, row.value, directed, limit, key, RowsIn(lines[..i], number));
  }

  method SampleReal(lines: seq<Line>, directed: bool, limit: nat, key: Edge -> nat, number: string -> Option<int>)
    returns (r: Result<(set<Edge>, nat), SampleError>, ghost kept: multiset<Edge>)
    requires limit > 0
    ensures Sampled(lines, directed, limit, key, number, r, kept)
  {
    var heap: multiset<Edge>, rows := multiset{}, 0;
    kept := heap;
    var i := 0;
    while i < |lines|
      invariant 0 <= i <= |lines| && ReadUpTo(lines, number, i, directed, limit, key, heap, rows)
    {
      var refused;
      refused, heap, rows := TakeLine(lines, i, directed, limit, key, number, heap, rows);
      if refused.Some? {
        return Failure(refused.value), kept;
      }
      i := i + 1;
    }
    assert lines[..i] == lines;
    RowsInAreColumns(lines, number);
    kept := heap;
    EmptyMeansNoEdges(RowsIn(lines, number), directed, limit, key, kept);
    if heap == multiset{} {
      return Failure(NoUsableEdges), kept;
    }
    var selected := set e | e in heap;
    r := Success((selected, rows));
  }

  lemma EmptyMeansNoEdges(rows: seq<Edge>, directed: bool, limit: nat, key: Edge -> nat, kept: multiset<Edge>)
    requires limit > 0 && Smallest(kept, Offered(rows, directed), limit, key)
    ensures kept == multiset{} <==> forall e | e in rows :: e.0 == e.1
  {
    var offered := Offered(rows, directed);
    if kept == multiset{} {
      assert offered == multiset{};
      forall e | e in rows
        ensures e.0 == e.1
      {
        OfferedCount(rows, directed, e);
        assert multiset(rows)[e] > 0;
      }
    } else {
      var e :| e in kept;
      OfferedCount(rows, directed, e);
      assert e in multiset(rows) || (e.1, e.0) in multiset(rows);
    }
  }

  /** Reordering the rows of a file does not change what is kept. */
  lemma OrderDoesNotMatter(rows: seq<Edge>, rows': seq<Edge>, directed: bool, limit: nat, key: Edge -> nat,
                           kept: multiset<Edge>, kept': multiset<Edge>)
    requires multiset(rows) == multiset(rows')
    requires forall x, y | key(x) == key(y) :: x == y
    requires Smallest(kept, Offered(rows, directed), limit, key)
    requires Smallest(kept', Offered(rows', directed), limit, key)
    ensures kept == kept'
  {
    forall e: Edge
      ensures Offered(rows, directed)[e] == Offered(rows', directed)[e]
    {
      OfferedCount(rows, directed, e);
      OfferedCount(rows', directed, e);
    }
    assert Offered(rows, directed) == Offered(rows', directed);
    SmallestIsUnique(kept, kept', Offered(rows, directed), limit, key);
  }

  // ---------- Renumbering ----------

  /** The edges with their endpoints replaced by positions in the list of vertices. */
  ghost predicate Renumbers(out: seq<Arc>, vertices: seq<int>, edges: set<Edge>)
  {
    && Ascending(vertices)
    && (forall v :: v in vertices <==> exists e :: e in edges && (e.0 == v || e.1 == v))
    && (forall e | e in out :: e.0 < |vertices| && e.1 < |vertices|)
    && (forall a: nat, b: nat | a < |vertices| && b < |vertices| :: (a, b) in out <==>
        (vertices[a], vertices[b]) in edges)
  }

  /** Positions in an ascending list are an order-preserving bijection between the vertices and 0..k-1. */
  lemma PositionsAreMonotone(vertices: seq<int>, a: nat, b: nat)
    requires Ascending(vertices) && a < |vertices| && b < |vertices|
    ensures vertices[a] < vertices[b] <==> a < b
    ensures vertices[a] == vertices[b] <==> a == b
  {
  }

  /** The edges in some order, and their endpoints in increasing order. */
  method EndpointList(edges: set<Edge>) returns (listed: seq<Edge>, vertices: seq<int>)
    ensures forall e :: e in listed <==> e in edges
    ensures Ascending(vertices)
    ensures forall v :: v in vertices <==> exists e :: e in edges && (e.0 == v || e.1 == v)
  {
    listed, vertices := [], [];
    var pending := edges;
    while pending != {}
      invariant pending <= edges && Ascending(vertices)
      invariant forall e :: e in listed <==> e in edges - pending
      invariant forall v :: v in vertices <==> exists e :: e in edges - pending && (e.0 == v || e.1 == v)
    {
      var e :| e in pending;
      ghost var done := edges - pending;
      pending := pending - {e};
      assert edges - pending == done + {e};
      listed := listed + [e];
      vertices := InsertSorted(vertices, e.0);
      vertices := InsertSorted(vertices, e.1);
      assert e in edges - pending;
    }
    assert edges - pending == edges;
  }

  predicate Position(mapping: map<int, nat>, v: int, i: nat)
  {
    v in mapping && mapping[v] == i
  }

  method Positions(vertices: seq<int>) returns (mapping: map<int, nat>)
    requires Ascending(vertices)
    ensures forall v :: v in mapping <==> v in vertices
    ensures forall i: nat | i < |vertices| :: Position(mapping, vertices[i], i)
    ensures forall v | v in mapping :: mapping[v] < |vertices| && vertices[mapping[v]] == v
  {
    mapping := map[];
    var i := 0;
    while i < |vertices|
      invariant 0 <= i <= |vertices|
      invariant forall v :: v in mapping <==> v in vertices[..i]
      invariant forall j: nat | j < i :: Position(mapping, vertices[j], j)
      invariant forall v | v in mapping :: mapping[v] < i && vertices[mapping[v]] == v
    {
      assert vertices[..i + 1] == vertices[..i] + [vertices[i]];
      mapping := mapping[vertices[i] := i];
      i := i + 1;
    }
    assert vertices[..i] == vertices;
  }

  /** The pairs listed so far are exactly the renumbered edges. */
  ghost predicate Pairs(pairs: seq<Arc>, vertices: seq<int>, listed: seq<Edge>)
  {
    && (forall e | e in pairs :: e.0 < |vertices| && e.1 < |vertices|)
    && (forall a: nat, b: nat {:trigger (a, b) in pairs} | a < |vertices| && b < |vertices| ::
          (a, b) in pairs <==> (vertices[a], vertices[b]) in listed)
  }

  lemma OnePair(pairs: seq<Arc>, vertices: seq<int>, listed: seq<Edge>, a: nat, b: nat, e: Edge)
    requires Ascending(vertices) && Pairs(pairs, vertices, listed)
    requires a < |vertices| && b < |vertices| && e == (vertices[a], vertices[b])
    ensures Pairs(pairs + [(a, b)], vertices, listed + [e])
  {
    forall c: nat, d: nat | c < |vertices| && d < |vertices|
      ensures (c, d) in pairs + [(a, b)] <==> (vertices[c], vertices[d]) in listed + [e]
    {
      PositionsAreMonotone(vertices, a, c);
      PositionsAreMonotone(vertices, b, d);
    }
  }

  method Renumber(listed: seq<Edge>, vertices: seq<int>, mapping: map<int, nat>) returns (pairs: seq<Arc>)
    requires Ascending(vertices) && forall e | e in listed :: e.0 in mapping && e.1 in mapping
    requires forall v | v in mapping :: mapping[v] < |vertices| && vertices[mapping[v]] == v
    ensures Pairs(pairs, vertices, listed)
  {
    pairs := [];
    var i := 0;
    while i < |listed|
      invariant 0 <= i <= |listed| && Pairs(pairs, vertices, listed[..i])
    {
      var e := listed[i];
      assert e in listed && listed[..i + 1] == listed[..i] + [e];
      var (u, v) := e;
      assert u in mapping && v in mapping;
      OnePair(pairs, vertices, listed[..i], mapping[u], mapping[v], e);
      pairs := pairs + [(mapping[u], mapping[v])];
      i := i + 1;
    }
    assert listed[..i] == listed;
  }

  /** Renumber the vertices 0..k-1 in increasing order. */
  method Remap(edges: set<Edge>) returns (out: seq<Arc>, vertices: seq<int>)
    ensures Sorted(out) && Renumbers(out, vertices, edges)
  {
    var listed;
    listed, vertices := EndpointList(edges);
    var mapping := Positions(vertices);
    forall e | e in listed
      ensures e.0 in mapping && e.1 in mapping
    {
      var (u, v) := e;
      assert e in edges && e.0 == u && e.1 == v;
      assert u in vertices && v in vertices;
    }
    var pairs := Renumber(listed, vertices, mapping);
    out := SortUnique(pairs);
  }
}
