/** Label correction: lowering distance labels along arcs until no arc is violated. */
module Relaxation {
  import opened Distances
  import opened BreadthFirst
  import opened Collections
  import opened MinHeaps

  /** Every arc is relaxed, or leaves a vertex still to be expanded, or is excused. */
  ghost predicate Settled(arcs: set<Arc>, dist: seq<nat>, open: set<nat>, excused: set<Arc>)
  {
    forall u: nat, v: nat {:trigger (u, v) in arcs} | (u, v) in arcs && u < |dist| && v < |dist| ::
      dist[v] <= dist[u] + 1 || u in open || (u, v) in excused
  }

  lemma LowerKeepsSettled(arcs: set<Arc>, dist: seq<nat>, open: set<nat>, excused: set<Arc>, v: nat, d: nat)
    requires Settled(arcs, dist, open, excused) && v < |dist| && d < dist[v]
    ensures Settled(arcs, dist[v := d], open + {v}, excused)
  {
  }

  // ---------- Counting reached vertices ----------

  ghost function Reached(dist: seq<nat>): set<nat>
  {
    set v: nat | v < |dist| && dist[v] != UNREACHABLE
  }

  lemma ReachedUpdate(dist: seq<nat>, v: nat, d: nat)
    requires v < |dist|
    ensures Reached(dist[v := d]) == if d != UNREACHABLE then Reached(dist) + {v} else Reached(dist) - {v}
  {
  }

  /** The new label of a vertex, and the count of reached vertices that goes with it. */
  function CountAfter(count: nat, label0: nat): nat
  {
    if label0 == UNREACHABLE then count + 1 else count
  }

  /** Lowering a label along an arc keeps the vector sound and the reached count right. */
  lemma LowerKeepsSound(arcs: set<Arc>, s: nat, dist: seq<nat>, count: nat, u: nat, v: nat)
    requires Sound(arcs, s, dist) && count == |Reached(dist)|
    requires forall x: nat | x < |dist| :: dist[x] <= UNREACHABLE
    requires (u, v) in arcs && u < |dist| && v < |dist| && dist[u] != UNREACHABLE && dist[u] + 1 < dist[v]
    ensures Next(dist[u]) == dist[u] + 1
    ensures Sound(arcs, s, dist[v := dist[u] + 1])
    ensures CountAfter(count, dist[v]) == |Reached(dist[v := dist[u] + 1])|
    ensures Sum(dist[v := dist[u] + 1]) < Sum(dist)
  {
    SoundAt(arcs, s, dist, u);
    assert Walk(arcs, s, v, dist[u] + 1);
    SoundUpdate(arcs, s, dist, v, dist[u] + 1);
    ReachedUpdate(dist, v, dist[u] + 1);
    SumUpdate(dist, v, dist[u] + 1);
  }

  /** Labels that are lengths of walks, with the number of reached vertices. */
  ghost predicate Labelled(arcs: set<Arc>, s: nat, dist: seq<nat>, count: nat)
  {
    && (forall v: nat | v < |dist| :: dist[v] <= UNREACHABLE)
    && Sound(arcs, s, dist)
    && count == |Reached(dist)|
  }

  /** Labels of which nothing is known but their range, that only the source is labelled 0, and their number. */
  ghost predicate Tallied(s: nat, dist: seq<nat>, count: nat)
  {
    && (forall v: nat | v < |dist| :: dist[v] <= UNREACHABLE && (dist[v] == 0 ==> v == s))
    && count == |Reached(dist)|
  }

  ghost function AllArcs(m: nat): set<Arc>
  {
    set u: nat, v: nat | u < m && v < m :: (u, v)
  }

  lemma {:induction false} AnyLength(m: nat, s: nat, v: nat, k: nat)
    requires s < m && v < m && k > 0
    ensures Walk(AllArcs(m), s, v, k)
    decreases k
  {
    if k == 1 {
      assert Walk(AllArcs(m), s, s, 0);
    } else {
      AnyLength(m, s, s, k - 1);
    }
    assert (s, v) in AllArcs(m) && Walk(AllArcs(m), s, s, k - 1);
  }

  /** With arcs between any two vertices any such labels are lengths of walks. */
  lemma TalliedIsLabelled(arcs: set<Arc>, m: nat, s: nat, dist: seq<nat>, count: nat)
    requires Tallied(s, dist, count) && |dist| <= m && s < m && AllArcs(m) <= arcs
    ensures Labelled(arcs, s, dist, count)
  {
    forall v: nat | v < |dist| && dist[v] != UNREACHABLE
      ensures Walk(arcs, s, v, dist[v])
    {
      if dist[v] > 0 {
        AnyLength(m, s, v, dist[v]);
        WalkMonotone(AllArcs(m), arcs, s, v, dist[v]);
      }
    }
  }

  lemma LabelledIsTallied(arcs: set<Arc>, s: nat, dist: seq<nat>, count: nat)
    requires Labelled(arcs, s, dist, count)
    ensures Tallied(s, dist, count)
  {
    forall v: nat | v < |dist| && dist[v] == 0
      ensures v == s
    {
      SoundAt(arcs, s, dist, v);
    }
  }

  ghost predicate Below(dist: seq<nat>, bound: seq<nat>)
  {
    |dist| == |bound| && forall v: nat | v < |dist| :: dist[v] <= bound[v]
  }

  lemma CloseVertex(arcs: set<Arc>, dist: seq<nat>, open: set<nat>, excused: set<Arc>, u: nat)
    requires Settled(arcs, dist, open + {u}, excused) && u < |dist|
    requires forall v: nat | (u, v) in arcs && v < |dist| :: dist[v] <= dist[u] + 1
    ensures Settled(arcs, dist, open, excused)
  {
  }

  lemma LowerToQueue(arcs: set<Arc>, dist: seq<nat>, open: set<nat>, pushed: seq<nat>, u: nat, excused: set<Arc>,
                     v: nat, d: nat)
    requires Settled(arcs, dist, open + Elements(pushed) + {u}, excused) && v < |dist| && d < dist[v]
    ensures Settled(arcs, dist[v := d], open + Elements(pushed + [v]) + {u}, excused)
  {
    LowerKeepsSettled(arcs, dist, open + Elements(pushed) + {u}, excused, v, d);
    assert open + Elements(pushed) + {u} + {v} == open + Elements(pushed + [v]) + {u};
  }

  /** Labels that change become d. */
  ghost predicate OnlyTo(dist: seq<nat>, dist0: seq<nat>, d: nat)
  {
    |dist| == |dist0| && forall v: nat | v < |dist| :: dist[v] == dist0[v] || dist[v] == d
  }

  /** The vertices pushed so far are those lowered, all to d. */
  ghost predicate Pushed(dist: seq<nat>, dist0: seq<nat>, pushed: seq<nat>, d: nat)
  {
    && OnlyTo(dist, dist0, d)
    && forall i | 0 <= i < |pushed| :: pushed[i] < |dist| && dist[pushed[i]] == d
  }

  lemma PushOne(dist: seq<nat>, dist0: seq<nat>, pushed: seq<nat>, d: nat, v: nat)
    requires Pushed(dist, dist0, pushed, d) && v < |dist|
    ensures Pushed(dist[v := d], dist0, pushed + [v], d)
  {
  }

  ghost predicate Met(met: seq<nat>, dist: seq<nat>, bound: nat)
  {
    forall v | v in met :: v < |dist| && dist[v] <= bound
  }

  lemma MeetOne(met: seq<nat>, dist: seq<nat>, bound: nat, v: nat)
    requires Met(met, dist, bound) && v < |dist|
    ensures dist[v] <= bound ==> Met(met + [v], dist, bound)
    ensures bound < dist[v] ==> Met(met + [v], dist[v := bound], bound)
  {
  }

  /** The arcs from u to the vertices met so far are relaxed. */
  ghost predicate RowSoFar(met: seq<nat>, u: nat, dist: seq<nat>, dist0: seq<nat>, count: nat, pushed: seq<nat>,
                           arcs: set<Arc>, core: set<Arc>, s: nat, open: set<nat>, excused: set<Arc>)
  {
    && u < |dist| && |dist| == |dist0| && dist[u] == dist0[u] != UNREACHABLE
    && Labelled(arcs, s, dist, count) && Below(dist, dist0) && Pushed(dist, dist0, pushed, dist0[u] + 1)
    && Settled(core, dist, open + Elements(pushed) + {u}, excused)
    && Met(met, dist, dist0[u] + 1)
    && (Sum(dist) < Sum(dist0) || (dist == dist0 && pushed == []))
  }

  /** A lowered label keeps all labels sound and below what they were. */
  lemma LowerLabelled(arcs: set<Arc>, s: nat, dist: seq<nat>, dist0: seq<nat>, count: nat, u: nat, v: nat)
    requires Labelled(arcs, s, dist, count) && |dist| == |dist0| && Below(dist, dist0)
    requires (u, v) in arcs && u < |dist| && v < |dist| && dist[u] != UNREACHABLE && Next(dist[u]) < dist[v]
    ensures Next(dist[u]) == dist[u] + 1
    ensures Labelled(arcs, s, dist[v := Next(dist[u])], CountAfter(count, dist[v]))
    ensures Below(dist[v := Next(dist[u])], dist0) && Sum(dist[v := Next(dist[u])]) < Sum(dist)
  {
    LowerKeepsSound(arcs, s, dist, count, u, v);
  }

  lemma RowStep(met: seq<nat>, u: nat, v: nat, dist: seq<nat>, dist0: seq<nat>, count: nat, pushed: seq<nat>,
                arcs: set<Arc>, core: set<Arc>, s: nat, open: set<nat>, excused: set<Arc>)
    requires RowSoFar(met, u, dist, dist0, count, pushed, arcs, core, s, open, excused)
    requires v < |dist| && v != u && (u, v) in arcs
    ensures Next(dist[u]) < dist[v] ==>
      RowSoFar(met + [v], u, dist[v := Next(dist[u])], dist0, CountAfter(count, dist[v]), pushed + [v],
               arcs, core, s, open, excused)
    ensures dist[v] <= Next(dist[u]) ==>
      RowSoFar(met + [v], u, dist, dist0, count, pushed, arcs, core, s, open, excused)
  {
    MeetOne(met, dist, dist0[u] + 1, v);
    if Next(dist[u]) < dist[v] {
      LowerLabelled(arcs, s, dist, dist0, count, u, v);
      LowerToQueue(core, dist, open, pushed, u, excused, v, dist[u] + 1);
      PushOne(dist, dist0, pushed, dist0[u] + 1, v);
    }
  }

  lemma RowRelaxed(row: seq<nat>, u: nat, dist: seq<nat>, dist0: seq<nat>, count: nat, pushed: seq<nat>,
                   arcs: set<Arc>, core: set<Arc>, s: nat, open: set<nat>, excused: set<Arc>)
    requires RowSoFar(row, u, dist, dist0, count, pushed, arcs, core, s, open, excused)
    requires forall v: nat | (u, v) in core :: v in row
    ensures Labelled(arcs, s, dist, count) && Below(dist, dist0) && Pushed(dist, dist0, pushed, dist0[u] + 1)
    ensures Settled(core, dist, open + Elements(pushed), excused)
    ensures Sum(dist) < Sum(dist0) || (dist == dist0 && pushed == [])
  {
    CloseVertex(core, dist, open + Elements(pushed), excused, u);
  }

  /** Relax every arc of one row; the vertices lowered join the queue. */
  method RelaxRow(row: seq<nat>, u: nat, dist0: seq<nat>, count0: nat, queue0: seq<nat>,
                  ghost arcs: set<Arc>, ghost core: set<Arc>, ghost s: nat, ghost open: set<nat>,
                  ghost excused: set<Arc>)
    returns (dist: seq<nat>, count: nat, queue: seq<nat>)
    requires Labelled(arcs, s, dist0, count0)
    requires u < |dist0| && dist0[u] != UNREACHABLE
    requires forall v | v in row :: v < |dist0| && v != u && (u, v) in arcs
    requires forall v: nat | (u, v) in core :: v in row
    requires Settled(core, dist0, open + {u}, excused)
    ensures Labelled(arcs, s, dist, count) && Below(dist, dist0)
    ensures queue0 <= queue && Pushed(dist, dist0, queue[|queue0|..], dist0[u] + 1)
    ensures Settled(core, dist, open + Elements(queue[|queue0|..]), excused)
    ensures Sum(dist) < Sum(dist0) || (dist == dist0 && queue == queue0)
  {
    dist, count, queue := dist0, count0, queue0;
    ghost var pushed: seq<nat> := [];
    var i := 0;
    assert open + Elements(pushed) + {u} == open + {u};
    while i < |row|
      invariant 0 <= i <= |row| && queue == queue0 + pushed
      invariant RowSoFar(row[..i], u, dist, dist0, count, pushed, arcs, core, s, open, excused)
    {
      var v := row[i];
      assert v in row && row[..i + 1] == row[..i] + [v];
      RowStep(row[..i], u, v, dist, dist0, count, pushed, arcs, core, s, open, excused);
      if Next(dist[u]) < dist[v] {
        count := CountAfter(count, dist[v]);
        dist := dist[v := Next(dist[u])];
        queue := queue + [v];
        pushed := pushed + [v];
      }
      i := i + 1;
    }
    assert row[..i] == row;
    assert queue[|queue0|..] == pushed;
    RowRelaxed(row, u, dist, dist0, count, pushed, arcs, core, s, open, excused);
  }

  /** What is left in the queue after its head was taken and more vertices were pushed. */
  lemma QueueStep(queue0: seq<nat>, queue: seq<nat>, head: nat)
    requires head < |queue0| && queue0 <= queue
    ensures Elements(queue0[head..]) == Elements(queue0[head + 1..]) + {queue0[head]}
    ensures Elements(queue[head + 1..]) == Elements(queue0[head + 1..]) + Elements(queue[|queue0|..])
  {
    assert queue0[head..] == [queue0[head]] + queue0[head + 1..];
    assert queue[head + 1..] == queue0[head + 1..] + queue[|queue0|..];
  }

  ghost predicate NothingReached(dist: seq<nat>)
  {
    forall v: nat | v < |dist| :: dist[v] == UNREACHABLE
  }

  ghost predicate InBounds(queue: seq<nat>, n: nat)
  {
    forall i | 0 <= i < |queue| :: queue[i] < n
  }

  /** One arc relaxed, if both ends are known and the origin is reached. */
  function RelaxedBy(dist: seq<nat>, u: nat, v: nat): seq<nat>
  {
    if u < |dist| && v < |dist| && dist[u] != UNREACHABLE && dist[u] + 1 < dist[v] then dist[v := dist[u] + 1] else dist
  }

  /** Relax one arc; a lowered target joins the queue. */
  method RelaxArc(u: nat, v: nat, dist0: seq<nat>, count0: nat, queue0: seq<nat>,
                  ghost arcs: set<Arc>, ghost core: set<Arc>, ghost s: nat, ghost excused: set<Arc>)
    returns (dist: seq<nat>, count: nat, queue: seq<nat>)
    requires Labelled(arcs, s, dist0, count0) && InBounds(queue0, |dist0|)
    requires u != v && u < |dist0| && v < |dist0| ==> (u, v) in arcs
    requires Settled(core, dist0, Elements(queue0), excused)
    ensures Labelled(arcs, s, dist, count) && Below(dist, dist0) && InBounds(queue, |dist|)
    ensures Settled(core, dist, Elements(queue), excused - {(u, v)})
    ensures dist == RelaxedBy(dist0, u, v) && queue == if dist == dist0 then queue0 else queue0 + [v]
  {
    dist, count, queue := dist0, count0, queue0;
    if u >= |dist| || v >= |dist| || dist[u] == UNREACHABLE {
      return;
    }
    if Next(dist[u]) < dist[v] {
      LowerKeepsSound(arcs, s, dist, count, u, v);
      LowerKeepsSettled(core, dist, Elements(queue), excused, v, dist[u] + 1);
      assert Elements(queue + [v]) == Elements(queue) + {v};
      count := CountAfter(count, dist[v]);
      dist := dist[v := Next(dist[u])];
      queue := queue + [v];
      assert dist[v] != dist0[v];
    }
  }

  // ---------- Next to the source ----------

  /** The labels 0 and 1 are those there were, and those of the targets of arcs added at s. Of the listed vertices only
      the latter is said. */
  ghost predicate OneAway(dist: seq<nat>, dist0: seq<nat>, added: set<Arc>, s: nat, listed: set<nat>)
  {
    && |dist| == |dist0|
    && (forall v: nat | v < |dist| && (s, v) in added :: dist[v] <= 1)
    && (forall v: nat | v < |dist| && v !in listed :: dist[v] <= 1 <==> dist0[v] <= 1 || (s, v) in added)
  }

  /** Only the source is labelled 0. */
  ghost predicate OnlySource(s: nat, dist: seq<nat>)
  {
    s < |dist| && forall v: nat | v < |dist| :: dist[v] == 0 <==> v == s
  }

  /** The source is not in the queue. */
  ghost predicate AwayFrom(queue: seq<nat>, s: nat)
  {
    forall i | 0 <= i < |queue| :: queue[i] != s
  }

  lemma LabelledOnlySource(arcs: set<Arc>, s: nat, dist: seq<nat>, count: nat)
    requires Labelled(arcs, s, dist, count) && s < |dist| && dist[s] == 0
    ensures OnlySource(s, dist)
  {
    LabelledIsTallied(arcs, s, dist, count);
  }

  lemma RelaxNear(s: nat, dist: seq<nat>, u: nat, v: nat, queue: seq<nat>)
    requires OnlySource(s, dist) && AwayFrom(queue, s) && u != v
    ensures OnlySource(s, RelaxedBy(dist, u, v)) && OneAway(RelaxedBy(dist, u, v), dist, {(u, v)}, s, {})
    ensures RelaxedBy(dist, u, v) != dist ==> AwayFrom(queue + [v], s)
  {
  }

  lemma OneAwayTwice(dist0: seq<nat>, dist1: seq<nat>, dist2: seq<nat>, added1: set<Arc>, added2: set<Arc>, s: nat,
                     listed: set<nat>)
    requires OneAway(dist1, dist0, added1, s, listed) && OneAway(dist2, dist1, added2, s, {})
    ensures OneAway(dist2, dist0, added1 + added2, s, listed)
  {
  }

  /** Relaxing the row of another vertex than the source brings no label down to 1. */
  lemma RowNear(s: nat, dist: seq<nat>, dist0: seq<nat>, pushed: seq<nat>, u: nat)
    requires OnlySource(s, dist0) && u < |dist0| && u != s
    requires Pushed(dist, dist0, pushed, dist0[u] + 1) && Below(dist, dist0)
    ensures OnlySource(s, dist) && OneAway(dist, dist0, {}, s, {}) && AwayFrom(pushed, s)
  {
  }

  /** The arcs of an edge. */
  ghost function EdgeArcs(u: nat, v: nat, directed: bool): set<Arc>
  {
    if directed then {(u, v)} else {(u, v)} + {(v, u)}
  }

  /** An edge relaxed in the directions it has, and what that does to the queue. */
  lemma RelaxEdgeNear(s: nat, dist: seq<nat>, u: nat, v: nat, directed: bool, queue: seq<nat>)
    requires OnlySource(s, dist) && AwayFrom(queue, s) && u != v
    ensures var once := RelaxedBy(dist, u, v);
      var queued := if once == dist then queue else queue + [v];
      && OnlySource(s, once) && AwayFrom(queued, s) && OneAway(once, dist, {(u, v)}, s, {})
      && (!directed ==>
           var twice := RelaxedBy(once, v, u);
           && OnlySource(s, twice) && AwayFrom(if twice == once then queued else queued + [u], s)
           && OneAway(twice, dist, EdgeArcs(u, v, false), s, {}))
  {
    RelaxNear(s, dist, u, v, queue);
    var once := RelaxedBy(dist, u, v);
    var queued := if once == dist then queue else queue + [v];
    RelaxNear(s, once, v, u, queued);
    OneAwayTwice(dist, once, RelaxedBy(once, v, u), {(u, v)}, {(v, u)}, s, {});
  }

  /** Relax one edge, in both directions when undirected. */
  method RelaxEdge(u: nat, v: nat, directed: bool, dist0: seq<nat>, count0: nat, queue0: seq<nat>,
                   ghost arcs: set<Arc>, ghost core: set<Arc>, ghost s: nat, ghost excused: set<Arc>,
                   ghost rest: set<Arc>)
    returns (dist: seq<nat>, count: nat, queue: seq<nat>)
    requires Labelled(arcs, s, dist0, count0) && InBounds(queue0, |dist0|)
    requires u != v && u < |dist0| && v < |dist0| ==> (u, v) in arcs && (!directed ==> (v, u) in arcs)
    requires Settled(core, dist0, Elements(queue0), excused)
    requires excused - {(u, v)} - (if directed then {} else {(v, u)}) <= rest
    ensures Labelled(arcs, s, dist, count) && Below(dist, dist0) && InBounds(queue, |dist|)
    ensures Settled(core, dist, Elements(queue), rest)
    ensures NothingReached(dist0) ==> dist == dist0 && queue == queue0
    ensures u == v ==> dist == dist0 && queue == queue0
    ensures u != v && OnlySource(s, dist0) && AwayFrom(queue0, s) ==>
      OnlySource(s, dist) && AwayFrom(queue, s) && OneAway(dist, dist0, EdgeArcs(u, v, directed), s, {})
  {
    if u != v && OnlySource(s, dist0) && AwayFrom(queue0, s) {
      RelaxEdgeNear(s, dist0, u, v, directed, queue0);
    }
    dist, count, queue := RelaxArc(u, v, dist0, count0, queue0, arcs, core, s, excused);
    if !directed {
      dist, count, queue := RelaxArc(v, u, dist, count, queue, arcs, core, s, excused - {(u, v)});
    }
  }

  // ---------- Repairing a set of vertices ----------

  ghost function Into(arcs: set<Arc>, affected: set<nat>): set<Arc>
  {
    set a | a in arcs && a.1 in affected
  }

  /** Outside the repaired set nothing has moved. */
  ghost predicate SameOutside(dist: seq<nat>, before: seq<nat>, affected: set<nat>)
  {
    |dist| == |before| && forall v: nat | v < |dist| && v !in affected :: dist[v] == before[v]
  }

  /** The vertices repaired to a label below their previous one. */
  ghost function Improved(dist: seq<nat>, before: seq<nat>): set<nat>
  {
    set v: nat | v < |dist| && v < |before| && dist[v] < before[v]
  }

  /** After the arcs into the repaired set are relaxed, only improved vertices and new arcs can be violated. */
  lemma RepairSettles(arcs: set<Arc>, added: set<Arc>, dist: seq<nat>, before: seq<nat>, affected: set<nat>)
    requires SameOutside(dist, before, affected)
    requires Settled(arcs - added, before, {}, {})
    requires Settled(Into(arcs, affected), dist, {}, {})
    ensures Settled(arcs, dist, Improved(dist, before), added)
  {
    forall u: nat, v: nat | (u, v) in arcs && u < |dist| && v < |dist|
      ensures dist[v] <= dist[u] + 1 || u in Improved(dist, before) || (u, v) in added
    {
      if v in affected {
        assert (u, v) in Into(arcs, affected);
      } else if (u, v) !in added {
        assert (u, v) in arcs - added;
      }
    }
  }

  lemma SettledMonotone(arcs: set<Arc>, dist: seq<nat>, open: set<nat>, more: set<nat>, excused: set<Arc>)
    requires Settled(arcs, dist, open, excused) && open <= more
    ensures Settled(arcs, dist, more, excused)
  {
  }

  /** Seeded vertices are relaxed against the unaffected ones, and every reached affected vertex is in the heap. */
  ghost predicate Seeded(arcs: set<Arc>, dist: seq<nat>, affected: set<nat>, seeded: set<nat>, heap: multiset<Item>)
  {
    && (forall v | v in affected :: v < |dist| && (dist[v] == UNREACHABLE || (dist[v], v) in heap))
    && (forall v | v in affected && v !in seeded :: dist[v] == UNREACHABLE)
    && (forall u: nat, v: nat {:trigger (u, v) in arcs}
          | (u, v) in arcs && u < |dist| && v < |dist| && v in seeded && u !in affected :: dist[v] <= dist[u] + 1)
  }

  lemma SeedStep(arcs: set<Arc>, dist: seq<nat>, affected: set<nat>, seeded: set<nat>, heap: multiset<Item>, v: nat,
                 best: nat)
    requires Seeded(arcs, dist, affected, seeded, heap) && v in affected && v !in seeded && v < |dist|
    requires forall p: nat | (p, v) in arcs && p < |dist| && p !in affected :: best <= dist[p] + 1
    ensures Seeded(arcs, dist[v := best], affected, seeded + {v}, heap + multiset{(best, v)})
    ensures best == UNREACHABLE ==> Seeded(arcs, dist, affected, seeded + {v}, heap)
  {
    var dist', heap' := dist[v := best], heap + multiset{(best, v)};
    forall x | x in affected
      ensures x < |dist'| && (dist'[x] == UNREACHABLE || (dist'[x], x) in heap')
    {
    }
    forall u: nat, x: nat | (u, x) in arcs && u < |dist'| && x < |dist'| && x in seeded + {v} && u !in affected
      ensures dist'[x] <= dist'[u] + 1
    {
      assert dist'[u] == dist[u];
    }
  }

  lemma SeedLower(arcs: set<Arc>, s: nat, dist: seq<nat>, count: nat, affected: set<nat>, v: nat, best: nat, via: nat)
    requires Labelled(arcs, s, dist, count) && v in affected && v < |dist| && dist[v] == UNREACHABLE
    requires (via, v) in arcs && via < |dist| && dist[via] != UNREACHABLE && best == dist[via] + 1 < UNREACHABLE
    ensures Labelled(arcs, s, dist[v := best], CountAfter(count, dist[v]))
    ensures SameOutside(dist[v := best], dist, affected)
  {
    LowerKeepsSound(arcs, s, dist, count, via, v);
  }

  lemma SeededSettles(arcs: set<Arc>, dist: seq<nat>, affected: set<nat>, heap: multiset<Item>)
    requires Seeded(arcs, dist, affected, affected, heap)
    requires forall v: nat | v < |dist| :: dist[v] <= UNREACHABLE
    ensures Settled(Into(arcs, affected), dist, OpenInHeap(heap, dist), {})
  {
  }

  lemma LowerToHeap(arcs: set<Arc>, dist: seq<nat>, heap: multiset<Item>, u: nat, v: nat, d: nat)
    requires Settled(arcs, dist, OpenInHeap(heap, dist) + {u}, {}) && v < |dist| && d < dist[v]
    ensures Settled(arcs, dist[v := d], OpenInHeap(heap + multiset{(d, v)}, dist[v := d]) + {u}, {})
  {
    LowerKeepsSettled(arcs, dist, OpenInHeap(heap, dist) + {u}, {}, v, d);
    PushKeepsOpen(heap, dist, v, d);
    SettledMonotone(arcs, dist[v := d], OpenInHeap(heap, dist) + {u} + {v},
                    OpenInHeap(heap + multiset{(d, v)}, dist[v := d]) + {u}, {});
  }

  /** Part of a row relaxed into the heap, affected targets only. */
  ghost predicate HeapSoFar(met: seq<nat>, u: nat, affected: set<nat>, dist: seq<nat>, dist0: seq<nat>, count: nat,
                            heap: multiset<Item>, heap0: multiset<Item>, arcs: set<Arc>, into: set<Arc>, s: nat)
  {
    && u < |dist| && |dist| == |dist0| && dist[u] == dist0[u] != UNREACHABLE
    && Labelled(arcs, s, dist, count) && SameOutside(dist, dist0, affected) && Below(dist, dist0)
    && Settled(into, dist, OpenInHeap(heap, dist) + {u}, {}) && Met(met, dist, dist0[u] + 1)
    && (Sum(dist) < Sum(dist0) || (dist == dist0 && heap == heap0)) && NewItemsReached(heap, heap0)
  }

  ghost predicate NewItemsReached(heap: multiset<Item>, heap0: multiset<Item>)
  {
    forall item | item in heap :: item in heap0 || item.0 != UNREACHABLE
  }

  lemma HeapStep(met: seq<nat>, u: nat, affected: set<nat>, v: nat, dist: seq<nat>, dist0: seq<nat>, count: nat,
                 heap: multiset<Item>, heap0: multiset<Item>, arcs: set<Arc>, into: set<Arc>, s: nat)
    requires HeapSoFar(met, u, affected, dist, dist0, count, heap, heap0, arcs, into, s)
    requires v in affected && v < |dist| && v != u && (u, v) in arcs
    ensures Next(dist[u]) < dist[v] ==>
      HeapSoFar(met + [v], u, affected, dist[v := Next(dist[u])], dist0, CountAfter(count, dist[v]),
                heap + multiset{(Next(dist[u]), v)}, heap0, arcs, into, s)
    ensures dist[v] <= Next(dist[u]) ==>
      HeapSoFar(met + [v], u, affected, dist, dist0, count, heap, heap0, arcs, into, s)
  {
    MeetOne(met, dist, dist0[u] + 1, v);
    if Next(dist[u]) < dist[v] {
      LowerLabelled(arcs, s, dist, dist0, count, u, v);
      LowerToHeap(into, dist, heap, u, v, dist[u] + 1);
    }
  }

  lemma HeapRelaxed(met: seq<nat>, u: nat, affected: set<nat>, dist: seq<nat>, dist0: seq<nat>, count: nat,
                    heap: multiset<Item>, heap0: multiset<Item>, arcs: set<Arc>, core: set<Arc>, s: nat)
    requires HeapSoFar(met, u, affected, dist, dist0, count, heap, heap0, arcs, Into(core, affected), s)
    requires forall v: nat | (u, v) in core && v in affected :: v in met
    ensures Settled(Into(core, affected), dist, OpenInHeap(heap, dist), {})
  {
    CloseVertex(Into(core, affected), dist, OpenInHeap(heap, dist), {}, u);
  }

  /** Relax the arcs of one row that stay inside the repaired set; lowered vertices join the heap. */
  method RelaxAffectedRow(row: seq<nat>, u: nat, affected: set<nat>, dist0: seq<nat>, count0: nat,
                          heap0: multiset<Item>,
                          ghost arcs: set<Arc>, ghost core: set<Arc>, ghost s: nat)
    returns (dist: seq<nat>, count: nat, heap: multiset<Item>)
    requires Labelled(arcs, s, dist0, count0)
    requires u < |dist0| && dist0[u] != UNREACHABLE
    requires forall v | v in row :: v < |dist0| && v != u && (u, v) in arcs
    requires forall v: nat | (u, v) in core :: v in row
    requires Settled(Into(core, affected), dist0, OpenInHeap(heap0, dist0) + {u}, {})
    ensures Labelled(arcs, s, dist, count) && SameOutside(dist, dist0, affected) && Below(dist, dist0)
    ensures Settled(Into(core, affected), dist, OpenInHeap(heap, dist), {})
    ensures Sum(dist) < Sum(dist0) || (dist == dist0 && heap == heap0)
    ensures forall item | item in heap :: item in heap0 || item.0 != UNREACHABLE
  {
    dist, count, heap := dist0, count0, heap0;
    ghost var into, met: seq<nat> := Into(core, affected), [];
    var i := 0;
    while i < |row|
      invariant 0 <= i <= |row|
      invariant HeapSoFar(met, u, affected, dist, dist0, count, heap, heap0, arcs, into, s)
      invariant forall v | v in row[..i] && v in affected :: v in met
    {
      var v := row[i];
      assert v in row && row[..i + 1] == row[..i] + [v];
      if v in affected {
        HeapStep(met, u, affected, v, dist, dist0, count, heap, heap0, arcs, into, s);
        var candidate := Next(dist[u]);
        if candidate < dist[v] {
          count := CountAfter(count, dist[v]);
          dist := dist[v := candidate];
          heap := heap + multiset{(candidate, v)};
        }
        met := met + [v];
      }
      i := i + 1;
    }
    assert row[..i] == row;
    HeapRelaxed(met, u, affected, dist, dist0, count, heap, heap0, arcs, core, s);
  }
}
