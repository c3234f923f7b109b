/** The reverse scan as the repair engine runs it, on packed keys in reusable key sets. */
module KeyedScan {
  import opened Collections
  import opened Distances
  import opened DynamicGraphs
  import opened KeySets
  import opened PackedKeys

  ghost predicate Narrow(keys: set<Arc>)
  {
    forall k | k in keys :: k.0 < UNREACHABLE && k.1 < UNREACHABLE
  }

  ghost function Packed(keys: set<Arc>): set<nat>
  {
    set k | k in keys :: EdgeKey(k)
  }

  /** Packing loses nothing on 32-bit identifiers. */
  lemma PackedMember(keys: set<Arc>, key: Arc)
    requires Narrow(keys) && key.0 < UNREACHABLE && key.1 < UNREACHABLE
    ensures EdgeKey(key) in Packed(keys) <==> key in keys
    ensures Packed(keys + {key}) == Packed(keys) + {EdgeKey(key)}
  {
    KeyRoundTrip(key);
    if EdgeKey(key) in Packed(keys) {
      var k :| k in keys && EdgeKey(k) == EdgeKey(key);
      KeyRoundTrip(k);
    }
  }

  /** What the sets hold after the operations from i on were scanned. */
  ghost predicate Scanned(ops: seq<EdgeUpdate>, directed: bool, i: nat, seen: set<Arc>, gone: set<Arc>,
                          additions: seq<Arc>, deletions: seq<Arc>)
    requires i <= |ops|
  {
    && Narrow(seen) && Narrow(gone)
    && (forall key :: key in seen ==> LastOp(ops, directed, key) != None)
    && (forall key :: key !in seen ==> LastOp(ops, directed, key) == LastOp(ops[..i], directed, key))
    && ListsSeen(additions, seen, ops, directed, true) && ListsSeen(deletions, seen, ops, directed, false)
    && (forall key :: key in gone <==> key in seen && LastOp(ops, directed, key) == Some(false))
  }

  lemma ScanStep(ops: seq<EdgeUpdate>, directed: bool, i: nat, seen: set<Arc>, gone: set<Arc>, additions: seq<Arc>,
                 deletions: seq<Arc>)
    requires i < |ops| && InRange(ops) && Scanned(ops, directed, i + 1, seen, gone, additions, deletions)
    ensures var op := ops[i]; var key := Key(directed, op.src, op.dst);
      && (key in seen ==> Scanned(ops, directed, i, seen, gone, additions, deletions))
      && (key !in seen && op.add ==>
          Scanned(ops, directed, i, seen + {key}, gone, additions + [(op.src, op.dst)], deletions))
      && (key !in seen && !op.add ==>
          Scanned(ops, directed, i, seen + {key}, gone + {key}, additions, deletions + [(op.src, op.dst)]))
  {
    var op := ops[i];
    var key := Key(directed, op.src, op.dst);
    assert ops[..i + 1][..i] == ops[..i] && op in ops;
    if key !in seen {
      ListOneMore(additions, seen, ops, directed, true, op);
      ListOneMore(deletions, seen, ops, directed, false, op);
    }
  }

  /** The key set holds these keys, and they are few enough to leave free slots. */
  ghost predicate Holds(keySet: ReusableKeySet, held: set<Arc>, limit: nat)
    reads keySet
  {
    && keySet.Value().Valid() && Narrow(held)
    && keySet.Value().Contents() == Packed(held)
    && |Packed(held)| <= limit < |keySet.keys|
  }

  method InsertKey(keySet: ReusableKeySet, key: Arc, ghost held: set<Arc>, ghost limit: nat) returns (isNew: bool)
    requires Holds(keySet, held, limit) && limit + 1 < |keySet.keys| && key.0 < UNREACHABLE && key.1 < UNREACHABLE
    modifies keySet
    ensures Holds(keySet, held + {key}, limit + 1) && |keySet.keys| == old(|keySet.keys|)
    ensures isNew <==> key !in held
  {
    PackedMember(held, key);
    isNew := keySet.Insert(EdgeKey(key));
  }

  lemma ScanDone(ops: seq<EdgeUpdate>, directed: bool, seen: set<Arc>, gone: set<Arc>, additions: seq<Arc>,
                 deletions: seq<Arc>)
    requires Scanned(ops, directed, 0, seen, gone, additions, deletions)
    ensures ListsFinal(additions, ops, directed, true) && ListsFinal(deletions, ops, directed, false)
    ensures forall key: Arc | key.0 < UNREACHABLE && key.1 < UNREACHABLE ::
      EdgeKey(key) in Packed(gone) <==> LastOp(ops, directed, key) == Some(false)
  {
    assert ops[..0] == [];
    forall key: Arc | key.0 < UNREACHABLE && key.1 < UNREACHABLE
      ensures EdgeKey(key) in Packed(gone) <==> LastOp(ops, directed, key) == Some(false)
    {
      PackedMember(gone, key);
    }
  }

  /** Scan one operation: the first one met on its key is final. */
  method ScanOne(ops: seq<EdgeUpdate>, directed: bool, i: nat, seenFinal: ReusableKeySet,
                 finalDeletionKeys: ReusableKeySet,
                 additions0: seq<Arc>, deletions0: seq<Arc>, ghost seen0: set<Arc>, ghost gone0: set<Arc>)
    returns (additions: seq<Arc>, deletions: seq<Arc>, ghost seen: set<Arc>, ghost gone: set<Arc>)
    requires InRange(ops) && seenFinal != finalDeletionKeys && i < |ops|
    requires Scanned(ops, directed, i + 1, seen0, gone0, additions0, deletions0)
    requires Holds(seenFinal, seen0, |ops| - i - 1) && |seenFinal.keys| > |ops|
    requires Holds(finalDeletionKeys, gone0, |ops| - i - 1) && |finalDeletionKeys.keys| > |ops|
    modifies seenFinal, finalDeletionKeys
    ensures Scanned(ops, directed, i, seen, gone, additions, deletions)
    ensures Holds(seenFinal, seen, |ops| - i) && |seenFinal.keys| > |ops|
    ensures Holds(finalDeletionKeys, gone, |ops| - i) && |finalDeletionKeys.keys| > |ops|
  {
    additions, deletions, seen, gone := additions0, deletions0, seen0, gone0;
    var op := ops[i];
    var key := Key(directed, op.src, op.dst);
    assert op in ops;
    ScanStep(ops, directed, i, seen, gone, additions, deletions);
    var isNew := InsertKey(seenFinal, key, seen, |ops| - i - 1);
    if !isNew {
      assert seen + {key} == seen;
      return;
    }
    seen := seen + {key};
    if op.add {
      additions := additions + [(op.src, op.dst)];
    } else {
      deletions := deletions + [(op.src, op.dst)];
      var _ := InsertKey(finalDeletionKeys, key, gone, |ops| - i - 1);
      gone := gone + {key};
    }
  }

  /** The final additions and deletions of a batch, and the packed keys of the deletions. The sets never fill up,
      whatever they held before. */
  method SplitFinalKeyed(ops: seq<EdgeUpdate>, directed: bool, seenFinal: ReusableKeySet,
                         finalDeletionKeys: ReusableKeySet)
    returns (additions: seq<Arc>, deletions: seq<Arc>)
    requires InRange(ops) && seenFinal != finalDeletionKeys && seenFinal.Value().Valid()
    requires finalDeletionKeys.Value().Valid()
    modifies seenFinal, finalDeletionKeys
    ensures seenFinal.Value().Valid() && finalDeletionKeys.Value().Valid()
    ensures |finalDeletionKeys.Value().Contents()| < |finalDeletionKeys.keys|
    ensures ListsFinal(additions, ops, directed, true) && ListsFinal(deletions, ops, directed, false)
    ensures forall key: Arc | key.0 < UNREACHABLE && key.1 < UNREACHABLE ::
      EdgeKey(key) in finalDeletionKeys.Value().Contents() <==> LastOp(ops, directed, key) == Some(false)
  {
    seenFinal.Reset(|ops|);
    finalDeletionKeys.Reset(|ops|);
    additions, deletions := [], [];
    ghost var seen: set<Arc>, gone: set<Arc> := {}, {};
    var i := |ops|;
    assert ops[..i] == ops;
    while i > 0
      invariant 0 <= i <= |ops|
      invariant Holds(seenFinal, seen, |ops| - i) && |seenFinal.keys| > |ops|
      invariant Holds(finalDeletionKeys, gone, |ops| - i) && |finalDeletionKeys.keys| > |ops|
      invariant Scanned(ops, directed, i, seen, gone, additions, deletions)
    {
      i := i - 1;
      additions, deletions, seen, gone :=
        ScanOne(ops, directed, i, seenFinal, finalDeletionKeys, additions, deletions, seen, gone);
    }
    ScanDone(ops, directed, seen, gone, additions, deletions);
  }
}
