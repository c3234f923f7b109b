/** Worker threads sharing a task counter: every interleaving of their atomic steps. */
module WorkClaim {
  /** The size of the counter: `fetch_add` wraps at 2^64. */
  const WORD: nat := 0x1_0000_0000_0000_0000

  /** A worker is about to claim an index, holds one whose digest it has not stored yet, or has left the loop. */
  datatype Worker = Claiming | Holding(index: nat) | Finished

  /** `writes` counts the stores to each digest slot. */
  datatype Pool = Pool(next: nat, digests: seq<bv64>, writes: seq<nat>, workers: seq<Worker>)

  predicate InBounds(p: Pool)
  {
    && |p.writes| == |p.digests|
    && forall w | 0 <= w < |p.workers| && p.workers[w].Holding? :: p.workers[w].index < |p.digests|
  }

  predicate Enabled(p: Pool, w: nat)
  {
    w < |p.workers| && !p.workers[w].Finished?
  }

  /** One atomic step of worker w: the fetch-and-add with its bound check, or the store of a digest. */
  function Step(p: Pool, w: nat, task: nat -> bv64): (q: Pool)
    requires InBounds(p) && Enabled(p, w)
    ensures InBounds(q) && |q.digests| == |p.digests| && |q.workers| == |p.workers|
  {
    match p.workers[w]
    case Claiming =>
      var i := p.next;
      p.(next := (p.next + 1) % WORD, workers := p.workers[w := if i >= |p.digests| then Finished else Holding(i)])
    case Holding(i) =>
      p.(digests := p.digests[i := task(i)], writes := p.writes[i := p.writes[i] + 1],
         workers := p.workers[w := Claiming])
  }

  function Start(tasks: nat, threads: nat): (p: Pool)
    ensures InBounds(p)
  {
    Pool(0, seq(tasks, _ => 0), seq(tasks, _ => 0), seq(threads, _ => Claiming))
  }

  /** The schedule names, step by step, a worker that can move. */
  ghost predicate IsSchedule(p: Pool, schedule: seq<nat>, task: nat -> bv64)
    requires InBounds(p)
  {
    schedule == [] ||
    var before := schedule[..|schedule| - 1];
    IsSchedule(p, before, task) && Enabled(Execute(p, before, task), schedule[|schedule| - 1])
  }

  ghost function Execute(p: Pool, schedule: seq<nat>, task: nat -> bv64): (q: Pool)
    requires InBounds(p)
    ensures InBounds(q) && |q.digests| == |p.digests| && |q.workers| == |p.workers|
  {
    if schedule == [] then p
    else
      var q := Execute(p, schedule[..|schedule| - 1], task);
      if Enabled(q, schedule[|schedule| - 1]) then Step(q, schedule[|schedule| - 1], task) else q
  }

  // ---------- Counting workers ----------

  ghost function Count(workers: seq<Worker>, kind: Worker -> bool): (n: nat)
    ensures n <= |workers|
  {
    if workers == [] then 0 else Count(workers[..|workers| - 1], kind) + if kind(workers[|workers| - 1]) then 1 else 0
  }

  lemma {:induction false} CountUpdate(workers: seq<Worker>, w: nat, x: Worker, kind: Worker -> bool)
    requires w < |workers|
    ensures Count(workers[w := x], kind) ==
      Count(workers, kind) - (if kind(workers[w]) then 1 else 0) + if kind(x) then 1 else 0
  {
    var last := |workers| - 1;
    if w == last {
      assert workers[w := x][..last] == workers[..last];
    } else {
      assert workers[w := x][..last] == workers[..last][w := x];
      CountUpdate(workers[..last], w, x, kind);
    }
  }

  lemma {:induction false} CountAll(workers: seq<Worker>, kind: Worker -> bool)
    ensures (forall w | 0 <= w < |workers| :: kind(workers[w])) ==> Count(workers, kind) == |workers|
    ensures (forall w | 0 <= w < |workers| :: !kind(workers[w])) ==> Count(workers, kind) == 0
  {
    if workers != [] {
      CountAll(workers[..|workers| - 1], kind);
    }
  }

  ghost predicate IsHolding(w: Worker)
  {
    w.Holding?
  }

  ghost predicate IsFinished(w: Worker)
  {
    w.Finished?
  }

  // ---------- What every step keeps ----------

  /** Indices below the counter were handed out once each: stored once, or held by exactly one worker. */
  ghost predicate Claims(p: Pool, task: nat -> bv64)
  {
    var tasks := |p.digests|;
    && InBounds(p)
    && p.next <= tasks + |p.workers|
    && p.next == (if p.next < tasks then p.next else tasks) + Count(p.workers, IsFinished)
    && (forall w | 0 <= w < |p.workers| && p.workers[w].Holding? ::
        p.workers[w].index < p.next && p.writes[p.workers[w].index] == 0)
    && (forall v, w | 0 <= v < w < |p.workers| && p.workers[v].Holding? && p.workers[w].Holding? ::
        p.workers[v].index != p.workers[w].index)
    && (forall i | 0 <= i < tasks ::
        p.writes[i] <= 1 && (i >= p.next ==> p.writes[i] == 0) && (p.writes[i] == 1 ==> p.digests[i] == task(i)))
    && (forall i | 0 <= i < tasks && i < p.next && p.writes[i] == 0 :: Holding(i) in p.workers)
  }

  /** Steps still to come: two for every unclaimed index, one for every held index, one for every live worker. */
  ghost function Remaining(p: Pool): int
  {
    var tasks := |p.digests|;
    2 * (if p.next < tasks then tasks - p.next else 0) + Count(p.workers, IsHolding)
      + |p.workers| - Count(p.workers, IsFinished)
  }

  lemma StillHeld(workers: seq<Worker>, w: nat, x: Worker, i: nat)
    requires w < |workers| && workers[w] != Holding(i) && Holding(i) in workers
    ensures Holding(i) in workers[w := x]
  {
    var v :| 0 <= v < |workers| && workers[v] == Holding(i);
    assert workers[w := x][v] == Holding(i);
  }

  lemma LeaveStep(p: Pool, w: nat, task: nat -> bv64)
    requires Claims(p, task) && Enabled(p, w) && p.workers[w].Claiming? && |p.digests| + |p.workers| < WORD
    requires p.next >= |p.digests|
    ensures Claims(Step(p, w, task), task) && Remaining(Step(p, w, task)) == Remaining(p) - 1
  {
    var q := Step(p, w, task);
    CountUpdate(p.workers, w, Finished, IsFinished);
    assert q.workers == p.workers[w := Finished] && q.writes == p.writes && q.digests == p.digests;
    assert Count(q.workers, IsFinished) == Count(p.workers, IsFinished) + 1;
    assert q.next == p.next + 1;
    CountUpdate(p.workers, w, Finished, IsHolding);
    forall i | 0 <= i < |q.digests| && q.writes[i] == 0
      ensures Holding(i) in q.workers
    {
      StillHeld(p.workers, w, q.workers[w], i);
    }
  }

  lemma ClaimStep(p: Pool, w: nat, task: nat -> bv64)
    requires Claims(p, task) && Enabled(p, w) && p.workers[w].Claiming? && |p.digests| + |p.workers| < WORD
    requires p.next < |p.digests|
    ensures Claims(Step(p, w, task), task) && Remaining(Step(p, w, task)) == Remaining(p) - 1
  {
    var q := Step(p, w, task);
    CountUpdate(p.workers, w, Holding(p.next), IsFinished);
    CountUpdate(p.workers, w, Holding(p.next), IsHolding);
    forall i | 0 <= i < |q.digests| && i < q.next && q.writes[i] == 0
      ensures Holding(i) in q.workers
    {
      if i < p.next {
        StillHeld(p.workers, w, q.workers[w], i);
      } else {
        assert q.workers[w] == Holding(i);
      }
    }
  }

  lemma StoreStep(p: Pool, w: nat, task: nat -> bv64)
    requires Claims(p, task) && Enabled(p, w) && p.workers[w].Holding?
    ensures Claims(Step(p, w, task), task) && Remaining(Step(p, w, task)) == Remaining(p) - 1
  {
    var q := Step(p, w, task);
    var held := p.workers[w].index;
    CountUpdate(p.workers, w, Claiming, IsFinished);
    CountUpdate(p.workers, w, Claiming, IsHolding);
    forall i | 0 <= i < |q.digests| && i < q.next && q.writes[i] == 0
      ensures Holding(i) in q.workers
    {
      assert i != held;
      StillHeld(p.workers, w, q.workers[w], i);
    }
  }

  lemma StartClaims(tasks: nat, threads: nat, task: nat -> bv64)
    ensures Claims(Start(tasks, threads), task) && Remaining(Start(tasks, threads)) == 2 * tasks + threads
  {
    CountAll(Start(tasks, threads).workers, IsFinished);
    CountAll(Start(tasks, threads).workers, IsHolding);
  }

  /** Every interleaving keeps the claims, and each of its steps uses up exactly one of 2 * tasks + threads. */
  lemma {:induction false} EveryInterleaving(tasks: nat, threads: nat, task: nat -> bv64, schedule: seq<nat>)
    requires tasks + threads < WORD && IsSchedule(Start(tasks, threads), schedule, task)
    ensures var p := Execute(Start(tasks, threads), schedule, task);
            Claims(p, task) && |schedule| + Remaining(p) == 2 * tasks + threads
  {
    if schedule == [] {
      StartClaims(tasks, threads, task);
    } else {
      var last := |schedule| - 1;
      EveryInterleaving(tasks, threads, task, schedule[..last]);
      var p := Execute(Start(tasks, threads), schedule[..last], task);
      if p.workers[schedule[last]].Claiming? && p.next < tasks {
        ClaimStep(p, schedule[last], task);
      } else if p.workers[schedule[last]].Claiming? {
        LeaveStep(p, schedule[last], task);
      } else {
        StoreStep(p, schedule[last], task);
      }
    }
  }

  /** No worker can move any more. */
  ghost predicate Joined(p: Pool)
  {
    forall w: nat | w < |p.workers| :: !Enabled(p, w)
  }

  lemma AllStored(p: Pool, task: nat -> bv64)
    requires Claims(p, task) && Joined(p) && |p.workers| > 0
    ensures forall i | 0 <= i < |p.digests| :: p.writes[i] == 1 && p.digests[i] == task(i)
    ensures Remaining(p) == 0
  {
    forall w | 0 <= w < |p.workers|
      ensures IsFinished(p.workers[w]) && !IsHolding(p.workers[w])
    {
      assert !Enabled(p, w);
    }
    CountAll(p.workers, IsFinished);
    CountAll(p.workers, IsHolding);
  }

  // ---------- The ordered digest ----------

  /** What is added to a digest before it is combined. */
  function Offset(combined: bv64): bv64
  {
    0x9e37_79b9_7f4a_7c15 + (combined << 6) + (combined >> 2)
  }

  function MixWith(combined: bv64, h: bv64, offset: bv64): bv64
  {
    combined ^ (h + offset)
  }

  function Mix(combined: bv64, h: bv64): bv64
  {
    MixWith(combined, h, Offset(combined))
  }

  /** In 64-bit arithmetic the offset is a constant, 64 times what has been combined, and a quarter of it. */
  lemma OffsetMeaning(combined: bv64)
    ensures Offset(combined) == 0x9e37_79b9_7f4a_7c15 + 64 * combined + combined / 4
  {
  }

  /** The digest, from what was combined before it and after. */
  function UnmixWith(combined: bv64, mixed: bv64, offset: bv64): bv64
  {
    (mixed ^ combined) - offset
  }

  function Unmix(combined: bv64, mixed: bv64): bv64
  {
    UnmixWith(combined, mixed, Offset(combined))
  }

  lemma Undone(x: bv64, y: bv64, z: bv64)
    ensures ((x ^ (y + z)) ^ x) - z == y
  {
  }

  lemma UnmixMixWith(combined: bv64, h: bv64, offset: bv64)
    ensures UnmixWith(combined, MixWith(combined, h, offset), offset) == h
  {
    calc {
      UnmixWith(combined, MixWith(combined, h, offset), offset);
      UnmixWith(combined, combined ^ (h + offset), offset);
      ((combined ^ (h + offset)) ^ combined) - offset;
      { Undone(combined, h, offset); }
      h;
    }
  }

  lemma UnmixMix(combined: bv64, h: bv64)
    ensures Unmix(combined, Mix(combined, h)) == h
  {
    UnmixMixWith(combined, h, Offset(combined));
  }

  /** The digests of tasks 0, 1, ..., n - 1 folded one after the other. */
  function SequentialDigest(task: nat -> bv64, n: nat): bv64
  {
    if n == 0 then 0 else Mix(SequentialDigest(task, n - 1), task(n - 1))
  }

  lemma {:induction false} SameDigests(task: nat -> bv64, task': nat -> bv64, n: nat)
    requires forall i: nat | i < n :: task(i) == task'(i)
    ensures SequentialDigest(task, n) == SequentialDigest(task', n)
  {
    if n > 0 {
      SameDigests(task, task', n - 1);
    }
  }

  /** Every digest can be read off the results with it and without it. */
  lemma DigestShows(task: nat -> bv64, n: nat)
    requires n > 0
    ensures Unmix(SequentialDigest(task, n - 1), SequentialDigest(task, n)) == task(n - 1)
  {
    UnmixMix(SequentialDigest(task, n - 1), task(n - 1));
  }

  /** Two runs that differ in the last digest only end with different results. */
  lemma LastDigestShows(task: nat -> bv64, task': nat -> bv64, n: nat)
    requires n > 0 && (forall i: nat | i < n - 1 :: task(i) == task'(i)) && task(n - 1) != task'(n - 1)
    ensures SequentialDigest(task, n) != SequentialDigest(task', n)
  {
    SameDigests(task, task', n - 1);
    DigestShows(task, n);
    DigestShows(task', n);
  }

  method Combine(digests: seq<bv64>, ghost task: nat -> bv64) returns (combined: bv64)
    requires forall i | 0 <= i < |digests| :: digests[i] == task(i)
    ensures combined == SequentialDigest(task, |digests|)
  {
    combined := 0;
    var i := 0;
    while i < |digests|
      invariant 0 <= i <= |digests| && combined == SequentialDigest(task, i)
    {
      combined := Mix(combined, digests[i]);
      i := i + 1;
    }
  }

  /** A run of any positive number of workers under any scheduler ends, after exactly 2 * tasks + threads steps,
      with every slot stored once, and its digest is the sequential one: the thread count does not show. */
  method RunParallel(tasks: nat, threads: nat, task: nat -> bv64) returns (combined: bv64, ghost schedule: seq<nat>)
    requires 0 < threads && tasks + threads < WORD
    ensures IsSchedule(Start(tasks, threads), schedule, task) && |schedule| == 2 * tasks + threads
    ensures combined == SequentialDigest(task, tasks)
    ensures forall i | 0 <= i < tasks :: Execute(Start(tasks, threads), schedule, task).writes[i] == 1
  {
    var p := Start(tasks, threads);
    schedule := [];
    EveryInterleaving(tasks, threads, task, schedule);
    while exists w: nat :: w < |p.workers| && Enabled(p, w)
      invariant IsSchedule(Start(tasks, threads), schedule, task) && p == Execute(Start(tasks, threads), schedule, task)
      invariant InBounds(p) && |p.digests| == tasks && |p.workers| == threads
      invariant Claims(p, task) && |schedule| + Remaining(p) == 2 * tasks + threads && Remaining(p) >= 0
      decreases Remaining(p)
    {
      var w: nat :| w < |p.workers| && Enabled(p, w);
      p := Step(p, w, task);
      assert (schedule + [w])[..|schedule|] == schedule;
      schedule := schedule + [w];
      EveryInterleaving(tasks, threads, task, schedule);
    }
    AllStored(p, task);
    combined := Combine(p.digests, task);
  }

  /** Any two completed runs agree, whatever their numbers of workers and their interleavings. */
  lemma ThreadCountDoesNotShow(tasks: nat, task: nat -> bv64, threads: nat, schedule: seq<nat>, threads': nat,
                               schedule': seq<nat>)
    requires 0 < threads && tasks + threads < WORD && IsSchedule(Start(tasks, threads), schedule, task)
    requires 0 < threads' && tasks + threads' < WORD && IsSchedule(Start(tasks, threads'), schedule', task)
    requires Joined(Execute(Start(tasks, threads), schedule, task))
    requires Joined(Execute(Start(tasks, threads'), schedule', task))
    ensures Execute(Start(tasks, threads), schedule, task).digests ==
      Execute(Start(tasks, threads'), schedule', task).digests
  {
    EveryInterleaving(tasks, threads, task, schedule);
    EveryInterleaving(tasks, threads', task, schedule');
    AllStored(Execute(Start(tasks, threads), schedule, task), task);
    AllStored(Execute(Start(tasks, threads'), schedule', task), task);
  }
}
