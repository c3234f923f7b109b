/** A set of edge keys that is emptied in constant time: open addressing with linear probing, where a slot
    counts as occupied only while its stamp is the current generation. */
module KeySets {
  import opened BreadthFirst

  /** Stamps are 32 bits wide. */
  const STAMPS: nat := 0x1_0000_0000

  ghost predicate PowerOfTwo(n: nat)
  {
    n == 1 || (n > 1 && n % 2 == 0 && PowerOfTwo(n / 2))
  }

  /** A power of two, at least 8 and more than twice the expected number of keys. */
  method Capacity(expected: nat) returns (required: nat)
    ensures PowerOfTwo(required) && required >= 8 && required > 2 * expected
    ensures required == 8 || required <= 4 * expected
  {
    required := 8;
    assert PowerOfTwo(2) && PowerOfTwo(4);
    var target := expected * 2 + 1;
    while required < target
      invariant required >= 8 && PowerOfTwo(required) && (required == 8 || required <= 4 * expected)
    {
      assert (2 * required) / 2 == required;
      required := 2 * required;
    }
  }

  // ---------- Probing ----------

  /** The d-th slot of a probe sequence, which wraps around once. */
  function Probe(home: nat, d: nat, n: nat): (slot: nat)
    requires home < n && d < n
    ensures slot < n
  {
    if home + d < n then home + d else home + d - n
  }

  /** How many steps lead from the first slot to the given one. */
  function Offset(home: nat, slot: nat, n: nat): (d: nat)
    requires home < n && slot < n
    ensures d < n && Probe(home, d, n) == slot
  {
    if slot >= home then slot - home else slot + n - home
  }

  lemma NextSlot(slot: nat, n: nat)
    requires slot < n
    ensures (slot + 1) % n == if slot + 1 == n then 0 else slot + 1
  {
  }

  /** The table seen as a value: keys, stamps, the current generation and the hash. With a power-of-two capacity,
      masking the hash is taking it modulo the capacity. */
  datatype Table = Table(keys: seq<nat>, stamps: seq<nat>, generation: nat, mix: nat -> nat)
  {
    predicate Occupied(slot: nat)
      requires |stamps| == |keys| && slot < |keys|
    {
      stamps[slot] == generation
    }

    function Home(key: nat): (slot: nat)
      requires keys != []
      ensures slot < |keys|
    {
      mix(key) % |keys|
    }

    /** The probe sequence of the key stored in slot j reaches it without a gap. */
    ghost predicate Connected(j: nat)
      requires |stamps| == |keys| && j < |keys|
    {
      forall d: nat | d <= Offset(Home(keys[j]), j, |keys|) :: Occupied(Probe(Home(keys[j]), d, |keys|))
    }

    ghost predicate Past(j: nat)
      requires j < |stamps|
    {
      stamps[j] <= generation
    }

    /** Slots i and j do not hold the same key. */
    ghost predicate Apart(i: nat, j: nat)
      requires |stamps| == |keys| && i < |keys| && j < |keys|
    {
      Occupied(i) && Occupied(j) ==> keys[i] != keys[j]
    }

    /** Stamps never exceed the generation, no key is stored twice, and every stored key is connected. */
    ghost predicate Valid()
    {
      && |stamps| == |keys| && generation < STAMPS
      && (keys == [] || (PowerOfTwo(|keys|) && generation > 0))
      && (forall j: nat {:trigger Past(j)} | j < |stamps| :: Past(j))
      && (forall i: nat, j: nat {:trigger Apart(i, j)} | i < j < |keys| :: Apart(i, j))
      && (forall j: nat {:trigger Connected(j)} | j < |keys| && Occupied(j) :: Connected(j))
    }

    ghost predicate Holds(key: nat)
      requires |stamps| == |keys|
    {
      exists j: nat :: j < |keys| && Occupied(j) && keys[j] == key
    }

    ghost function Contents(): (s: set<nat>)
      requires |stamps| == |keys|
      ensures forall key :: key in s <==> Holds(key)
    {
      set j: nat | j < |keys| && Occupied(j) :: keys[j]
    }

    /** The first d probes for a key met other keys. */
    ghost predicate Missed(key: nat, d: nat)
      requires |stamps| == |keys| && keys != []
    {
      d < |keys| && forall e: nat | e < d ::
        Occupied(Probe(Home(key), e, |keys|)) && keys[Probe(Home(key), e, |keys|)] != key
    }

    lemma FullTable()
      requires Valid() && forall j: nat | j < |keys| :: Occupied(j)
      ensures |Contents()| == |keys|
    {
      forall i: nat, j: nat | i < j < |keys|
        ensures keys[i] != keys[j]
      {
        assert Apart(i, j) && Occupied(i) && Occupied(j);
      }
      DistinctCardinality(keys);
      assert Contents() == Elements(keys);
    }

    /** With fewer keys than slots there is a free slot within one round of probing. */
    lemma FreeProbe(key: nat) returns (d: nat)
      requires Valid() && |Contents()| < |keys|
      ensures d < |keys| && !Occupied(Probe(Home(key), d, |keys|))
    {
      if forall j: nat | j < |keys| :: Occupied(j) {
        FullTable();
        assert false;
      }
      var j: nat :| j < |keys| && !Occupied(j);
      d := Offset(Home(key), j, |keys|);
    }

    /** A key that is stored is met before the first free probe. */
    lemma AbsentAtFreeProbe(key: nat, d: nat)
      requires Valid() && keys != [] && Missed(key, d) && !Occupied(Probe(Home(key), d, |keys|))
      ensures !Holds(key)
    {
      forall j: nat | j < |keys| && Occupied(j)
        ensures keys[j] != key
      {
        var e := Offset(Home(key), j, |keys|);
        assert Connected(j);
        assert e < d ==> keys[Probe(Home(key), e, |keys|)] != key;
      }
    }

    function Store(key: nat, slot: nat): Table
      requires |stamps| == |keys| && slot < |keys|
    {
      Table(keys[slot := key], stamps[slot := generation], generation, mix)
    }

    lemma StoreConnects(key: nat, d: nat, j: nat)
      requires Valid() && keys != [] && Missed(key, d) && !Occupied(Probe(Home(key), d, |keys|))
      requires j < |keys| && Store(key, Probe(Home(key), d, |keys|)).Occupied(j)
      ensures Store(key, Probe(Home(key), d, |keys|)).Connected(j)
    {
      var slot := Probe(Home(key), d, |keys|);
      var after := Store(key, slot);
      forall e: nat | e <= Offset(after.Home(after.keys[j]), j, |keys|)
        ensures after.Occupied(Probe(after.Home(after.keys[j]), e, |keys|))
      {
        if j == slot {
          assert e < d || Probe(Home(key), e, |keys|) == slot;
        } else {
          assert Occupied(j) && Connected(j);
          assert Occupied(Probe(Home(keys[j]), e, |keys|));
        }
      }
    }

    lemma StoreKeepsValid(key: nat, d: nat)
      requires Valid() && keys != [] && Missed(key, d) && !Occupied(Probe(Home(key), d, |keys|))
      ensures Store(key, Probe(Home(key), d, |keys|)).Valid()
    {
      var slot := Probe(Home(key), d, |keys|);
      var after := Store(key, slot);
      AbsentAtFreeProbe(key, d);
      forall j: nat | j < |after.stamps|
        ensures after.Past(j)
      {
        assert Past(j);
      }
      forall i: nat, j: nat | i < j < |after.keys|
        ensures after.Apart(i, j)
      {
        assert Apart(i, j);
        assert Occupied(i) ==> Holds(keys[i]);
        assert Occupied(j) ==> Holds(keys[j]);
      }
      forall j: nat | j < |after.keys| && after.Occupied(j)
        ensures after.Connected(j)
      {
        StoreConnects(key, d, j);
      }
    }

    lemma StoreAdds(key: nat, d: nat)
      requires Valid() && keys != [] && Missed(key, d) && !Occupied(Probe(Home(key), d, |keys|))
      ensures Store(key, Probe(Home(key), d, |keys|)).Valid()
      ensures Store(key, Probe(Home(key), d, |keys|)).Contents() == Contents() + {key}
    {
      var slot := Probe(Home(key), d, |keys|);
      var after := Store(key, slot);
      StoreKeepsValid(key, d);
      forall x
        ensures x in after.Contents() <==> x in Contents() + {key}
      {
        if x in Contents() {
          var j: nat :| j < |keys| && Occupied(j) && keys[j] == x;
          assert after.Occupied(j) && after.keys[j] == x;
        }
        assert after.Occupied(slot) && after.keys[slot] == key;
        if after.Holds(x) && x != key {
          var j: nat :| j < |keys| && after.Occupied(j) && after.keys[j] == x;
          assert Occupied(j);
        }
      }
    }

    /** A table in which no slot is occupied is valid and empty. */
    lemma NothingOccupied()
      requires |stamps| == |keys| && 0 < generation < STAMPS && PowerOfTwo(|keys|)
      requires forall j: nat | j < |stamps| :: stamps[j] < generation
      ensures Valid() && Contents() == {}
    {
      assert forall j: nat | j < |keys| :: !Occupied(j);
    }
  }

  class ReusableKeySet {
    const mix: nat -> nat
    var keys: seq<nat>
    var stamps: seq<nat>
    var generation: nat

    ghost function Value(): Table
      reads this
    {
      Table(keys, stamps, generation, mix)
    }

    constructor (mix: nat -> nat)
      ensures Value() == Table([], [], 0, mix) && Value().Valid() && Value().Contents() == {}
    {
      this.mix := mix;
      keys, stamps, generation := [], [], 0;
    }

    /** Forget every key and make room for the expected number of new ones. */
    method Reset(expected: nat)
      requires Value().Valid()
      modifies this
      ensures Value().Valid() && Value().Contents() == {} && |keys| > 2 * expected
    {
      var required := Capacity(expected);
      if |keys| < required {
        keys, stamps, generation := seq(required, _ => 0), seq(required, _ => 0), 1;
        Value().NothingOccupied();
        return;
      }
      forall j: nat | j < |stamps|
        ensures stamps[j] <= generation
      {
        assert Value().Past(j);
      }
      generation := (generation + 1) % STAMPS;
      if generation == 0 {
        stamps := seq(|stamps|, _ => 0);
        generation := 1;
      }
      Value().NothingOccupied();
    }

    /** Probe until the key or a free slot is met. */
    method Find(key: nat) returns (found: bool, slot: nat, ghost d: nat)
      requires Value().Valid() && keys != [] && |Value().Contents()| < |keys|
      ensures d < |keys| && slot == Probe(Value().Home(key), d, |keys|)
      ensures found <==> key in Value().Contents()
      ensures !found ==> Value().Missed(key, d) && !Value().Occupied(slot)
    {
      ghost var table := Value();
      ghost var free := table.FreeProbe(key);
      slot, d := mix(key) % |keys|, 0;
      while stamps[slot] == generation
        invariant d <= free && slot == Probe(table.Home(key), d, |keys|) && table.Missed(key, d)
        decreases free - d
      {
        assert table.Occupied(slot);
        if keys[slot] == key {
          return true, slot, d;
        }
        NextSlot(slot, |keys|);
        slot := (slot + 1) % |keys|;
        d := d + 1;
      }
      table.AbsentAtFreeProbe(key, d);
      found := false;
    }

    method Contains(key: nat) returns (found: bool)
      requires Value().Valid() && (keys == [] || |Value().Contents()| < |keys|)
      ensures found <==> key in Value().Contents()
    {
      if keys == [] {
        return false;
      }
      var slot;
      ghost var d;
      found, slot, d := Find(key);
    }

    /** Add a key, and say whether it is new. */
    method Insert(key: nat) returns (added: bool)
      requires Value().Valid() && |Value().Contents()| < |keys|
      modifies this`keys, this`stamps
      ensures Value().Valid() && |keys| == old(|keys|)
      ensures added <==> key !in old(Value().Contents())
      ensures Value().Contents() == old(Value().Contents()) + {key}
    {
      var found, slot;
      ghost var d;
      found, slot, d := Find(key);
      if found {
        return false;
      }
      Value().StoreAdds(key, d);
      keys := keys[slot := key];
      stamps := stamps[slot := generation];
      return true;
    }
  }
}
