/** orderedmap: the insertion-ordered map that compacts as soon as more than half of its slots
    are tombstones, by rebuilding the slot array. */
module OrderedMap {
  import opened Iteration
  import opened Slots
  import Streams
  import Streams2

  class Map<K(==), V> {
    var table: map<K, int>
    var slots: seq<Entry<K, V>>
    var deletedCount: int
    /** The zero values of K and V, which Go writes into tombstones and returns on a miss. */
    const zeroK: K
    const zeroV: V

    /** The index and the tombstone count agree with the slots. */
    ghost predicate Consistent()
      reads this
    {
      Indexed(table, slots) && deletedCount == Tombstones(slots)
    }

    /** Between operations at most half of the slots are tombstones. */
    ghost predicate Valid()
      reads this
    {
      Consistent() && 2 * deletedCount <= |slots|
    }

    /** The map's contents: its live (key, value) pairs in insertion order. */
    ghost function Entries(): seq<(K, V)>
      reads this
    {
      Live(slots)
    }

    constructor (zeroK: K, zeroV: V)
      ensures Valid() && Entries() == []
      ensures table == map[] && slots == [] && deletedCount == 0
      ensures this.zeroK == zeroK && this.zeroV == zeroV
    {
      table := map[];
      slots := [];
      deletedCount := 0;
      this.zeroK := zeroK;
      this.zeroV := zeroV;
    }

    /** Capacity is a hint about allocation only; `make` refuses a negative one. */
    constructor NewWithCapacity(cap: int, zeroK: K, zeroV: V)
      requires cap >= 0
      ensures Valid() && Entries() == []
      ensures table == map[] && slots == [] && deletedCount == 0
      ensures this.zeroK == zeroK && this.zeroV == zeroV
    {
      table := map[];
      slots := [];
      deletedCount := 0;
      this.zeroK := zeroK;
      this.zeroV := zeroV;
    }

    function Get(key: K): (r: Option<V>)
      reads this
      requires Valid()
      ensures r == Lookup(Entries(), key)
      ensures r.Some? <==> key in table
    {
      IndexedLookup(table, slots, key);
      if key !in table || slots[table[key]].deleted then None
      else Some(slots[table[key]].value)
    }

    method Put(key: K, val: V)
      requires Valid()
      modifies this
      ensures Valid()
      ensures Entries() == Upsert(old(Entries()), key, val)
      ensures deletedCount == old(deletedCount)
      ensures key in old(table) ==>
        && table == old(table)
        && slots == old(slots)[old(table)[key] := old(slots)[old(table)[key]].(value := val, deleted := false)]
      ensures key !in old(table) ==>
        && table == old(table)[key := |old(slots)|]
        && slots == old(slots) + [Entry(key, val, false)]
    {
      if key in table {
        var idx := table[key];
        ghost var s0 := slots;
        PutExisting(table, slots, key, val);
        slots := slots[idx := slots[idx].(value := val)];
        slots := slots[idx := slots[idx].(deleted := false)];
        assert slots == s0[idx := Entry(key, val, false)];
        return;
      }
      PutNew(table, slots, key, val);
      table := table[key := |slots|];
      slots := slots + [Entry(key, val, false)];
    }

    method Delete(key: K) returns (present: bool)
      requires Valid()
      modifies this
      ensures Valid()
      ensures present <==> key in old(table)
      ensures Entries() == Without(old(Entries()), key)
      ensures !present ==> table == old(table) && slots == old(slots) && deletedCount == old(deletedCount)
      ensures present ==>
        var s1 := old(slots)[old(table)[key] := Entry(zeroK, zeroV, true)];
        var d := old(deletedCount) + 1;
        if d * 2 > |s1| then slots == Kept(s1) && deletedCount == 0
        else table == old(table) - {key} && slots == s1 && deletedCount == d
    {
      if key !in table {
        IndexedLookup(table, slots, key);
        LookupNoneAbsent(Entries(), key);
        WithoutAbsent(Entries(), key);
        return false;
      }
      var idx := table[key];
      ghost var s0 := slots;
      DeleteSlot(table, slots, key, Entry(zeroK, zeroV, true));
      table := table - {key};
      slots := slots[idx := slots[idx].(deleted := true)];
      deletedCount := deletedCount + 1;
      slots := slots[idx := slots[idx].(key := zeroK)];
      slots := slots[idx := slots[idx].(value := zeroV)];
      assert slots == s0[idx := Entry(zeroK, zeroV, true)];
      if deletedCount * 2 > |slots| {
        compact();
      }
      return true;
    }

    /** Rebuilds the slot array from the live slots, in order, re-pointing each key. */
    method compact()
      requires Consistent()
      modifies this
      ensures Valid()
      ensures slots == Kept(old(slots)) && deletedCount == 0
      ensures Entries() == old(Entries())
    {
      ghost var s0, t0 := slots, table;
      RebuildStart(s0, t0);
      var newSlots := [];
      var i := 0;
      while i < |slots|
        invariant slots == s0
        invariant RebuildInv(s0, t0, newSlots, table, i)
      {
        RebuildStep(s0, t0, newSlots, table, i);
        var e := slots[i];
        if !e.deleted {
          table := table[e.key := |newSlots|];
          newSlots := newSlots + [e];
        }
        i := i + 1;
      }
      RebuildEnd(s0, t0, newSlots, table);
      slots := newSlots;
      deletedCount := 0;
    }

    method All(accept: seq<(K, V)> -> bool) returns (out: seq<(K, V)>)
      requires Valid()
      ensures out == Consume(Entries(), accept)
    {
      out := Traverse(slots, p => p, accept);
      assert Mapped(p => p, Entries()) == Entries();
    }

    method Keys(accept: seq<K> -> bool) returns (out: seq<K>)
      requires Valid()
      ensures out == Consume(Mapped(Key, Entries()), accept)
    {
      out := Traverse(slots, Key, accept);
    }

    method Values(accept: seq<V> -> bool) returns (out: seq<V>)
      requires Valid()
      ensures out == Consume(Mapped(Value, Entries()), accept)
    {
      out := Traverse(slots, Value, accept);
    }

    function Len(): (n: int)
      reads this
      requires Valid()
      ensures n == |Entries()|
    {
      IndexedCard(table, slots);
      |table|
    }

    function Has(key: K): (b: bool)
      reads this
      requires Valid()
      ensures b <==> Lookup(Entries(), key).Some?
    {
      IndexedLookup(table, slots, key);
      key in table
    }

    method Clear()
      requires Valid()
      modifies this
      ensures Valid() && Entries() == []
      ensures table == map[] && slots == [] && deletedCount == 0
    {
      table := map[];
      slots := slots[..0];
      deletedCount := 0;
    }

    /** Reverse insertion order, as far as the consumer takes it; reads the slots only. */
    function Backward(accept: seq<(K, V)> -> bool): (r: seq<(K, V)>)
      reads this
      ensures r == Consume(Reverse(Entries()), accept)
    {
      Slots.Backward(slots, accept)
    }

    /** The map's pair stream, on a cell of its own. Its iterator ranges over the slot array
        itself, so every tombstone comes out as a (zero key, zero value) pair: the pairs are
        the contents only while there is no tombstone. */
    method Stream2() returns (s: Streams2.Stream2<K, V>)
      ensures s.Err() != null && fresh(s.wire) && s.wire.value == None
      ensures forall c :: s.run(c) == Streams.Lazy(Pairs(slots), None)
      ensures Valid() ==> (s.run(None).items == Entries() <==> deletedCount == 0)
    {
      var cell := new Streams.Cell();
      s := Streams2.New2(Pairs(slots), cell);
      AllSlotsShowTombstones(slots);
    }

    /** The pair stream as evidently intended: the contents, in insertion order. */
    method Stream2Live() returns (s: Streams2.Stream2<K, V>)
      ensures s.Err() != null && fresh(s.wire) && s.wire.value == None
      ensures forall c :: s.run(c) == Streams.Lazy(Entries(), None)
    {
      var cell := new Streams.Cell();
      s := Streams2.New2(Live(slots), cell);
    }
  }
}
