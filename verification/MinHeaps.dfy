/** A priority queue of (distance, vertex) pairs seen as the multiset of its items. */
module MinHeaps {
  type Item = (nat, nat)

  predicate Before(a: Item, b: Item)
  {
    a.0 < b.0 || (a.0 == b.0 && a.1 <= b.1)
  }

  method PopMin(heap: multiset<Item>) returns (top: Item, rest: multiset<Item>)
    requires heap != multiset{}
    ensures top in heap && rest == heap - multiset{top}
    ensures forall item | item in heap :: Before(top, item)
  {
    top :| top in heap;
    var unseen := heap - multiset{top};
    while unseen != multiset{}
      invariant unseen <= heap && top in heap
      invariant forall item | item in heap :: Before(top, item) || item in unseen
      decreases |unseen|
    {
      var item :| item in unseen;
      unseen := unseen - multiset{item};
      if Before(item, top) {
        top := item;
      }
    }
    rest := heap - multiset{top};
  }

  // ---------- Lazy deletion ----------

  /** The vertices whose current label is waiting in the heap. */
  ghost function OpenInHeap(heap: multiset<Item>, dist: seq<nat>): set<nat>
  {
    set v: nat | v < |dist| && (dist[v], v) in heap
  }

  lemma PushKeepsOpen(heap: multiset<Item>, dist: seq<nat>, v: nat, d: nat)
    requires v < |dist|
    ensures OpenInHeap(heap, dist) + {v} <= OpenInHeap(heap + multiset{(d, v)}, dist[v := d]) + {v}
    ensures v in OpenInHeap(heap + multiset{(d, v)}, dist[v := d])
  {
    forall x | x in OpenInHeap(heap, dist)
      ensures x == v || x in OpenInHeap(heap + multiset{(d, v)}, dist[v := d])
    {
    }
  }

  /** Taking an item out of the heap closes its vertex only if the item is not stale. */
  lemma PopKeepsOpen(heap: multiset<Item>, rest: multiset<Item>, top: Item, dist: seq<nat>)
    requires top in heap && rest == heap - multiset{top}
    ensures OpenInHeap(heap, dist) <= OpenInHeap(rest, dist) + {top.1}
    ensures top.1 >= |dist| || dist[top.1] != top.0 ==> OpenInHeap(heap, dist) <= OpenInHeap(rest, dist)
  {
  }
}
