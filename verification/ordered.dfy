/** map (package ordered): the insertion-ordered map with `Set` instead of `Put`; like
    orderedmap it compacts, by rebuilding the slot array, as soon as more than half of its slots are
    tombstones. */
module Ordered {
  import opened Iteration
  import opened Slots

  class Map<K(==), V> {
    var table: map<K, int>
    var slots: seq<Entry<K, V>>
    var deletedCount: int
    /** The zero values of K and V, which Go writes into tombstones and returns on a miss. */
    const zeroK: K
    const zeroV: V

    /** The index and the tombstone count agree with the slots. */
    ghost predicate Consistent()
      reads this
    {
      Indexed(table, slots) && deletedCount == Tombstones(slots)
    }

    /** Between operations at most half of the slots are tombstones. */
    ghost predicate Valid()
      reads this
    {
      Consistent() && 2 * deletedCount <= |slots|
    }

    /** The map's contents: its live (key, value) pairs in insertion order. */
    ghost function Entries(): seq<(K, V)>
      reads this
    {
      Live(slots)
    }

    constructor (zeroK: K, zeroV: V)
      ensures Valid() && Entries() == []
      ensures table == map[] && slots == [] && deletedCount == 0
      ensures this.zeroK == zeroK && this.zeroV == zeroV
    {
      table := map[];
      slots := [];
      deletedCount := 0;
      this.zeroK := zeroK;
      this.zeroV := zeroV;
    }

    /** Capacity is a hint about allocation only; `make` refuses a negative one. */
    constructor NewWithCapacity(cap: int, zeroK: K, zeroV: V)
      requires cap >= 0
      ensures Valid() && Entries() == []
      ensures table == map[] && slots == [] && deletedCount == 0
      ensures this.zeroK == zeroK && this.zeroV == zeroV
    {
      table := map[];
      slots := [];
      deletedCount := 0;
      this.zeroK := zeroK;
      this.zeroV := zeroV;
    }

    function Get(key: K): (r: Option<V>)
      reads this
      requires Valid()
      ensures r == Lookup(Entries(), key)
      ensures r.Some? <==> key in table
    {
      IndexedLookup(table, slots, key);
      if key !in table || slots[table[key]].deleted then None
      else Some(slots[table[key]].value)
    }

    method Set(key: K, val: V)
      requires Valid()
      modifies this
      ensures Valid()
      ensures Entries() == Upsert(old(Entries()), key, val)
      ensures deletedCount == old(deletedCount)
      ensures key in old(table) ==>
        && table == old(table)
        && slots == old(slots)[old(table)[key] := old(slots)[old(table)[key]].(value := val, deleted := false)]
      ensures key !in old(table) ==>
        && table == old(table)[key := |old(slots)|]
        && slots == old(slots) + [Entry(key, val, false)]
    {
      if key in table {
        var idx := table[key];
        ghost var s0 := slots;
        PutExisting(table, slots, key, val);
        slots := slots[idx := slots[idx].(value := val)];
        slots := slots[idx := slots[idx].(deleted := false)];
        assert slots == s0[idx := Entry(key, val, false)];
        return;
      }
      PutNew(table, slots, key, val);
      table := table[key := |slots|];
      slots := slots + [Entry(key, val, false)];
    }

    method Delete(key: K) returns (present: bool)
      requires Valid()
      modifies this
      ensures Valid()
      ensures present <==> key in old(table)
      ensures Entries() == Without(old(Entries()), key)
      ensures !present ==> table == old(table) && slots == old(slots) && deletedCount == old(deletedCount)
      ensures present ==>
        var s1 := old(slots)[old(table)[key] := Entry(zeroK, zeroV, true)];
        var d := old(deletedCount) + 1;
        if d * 2 > |s1| then slots == Kept(s1) && deletedCount == 0
        else table == old(table) - {key} && slots == s1 && deletedCount == d
    {
      if key !in table {
        IndexedLookup(table, slots, key);
        LookupNoneAbsent(Entries(), key);
        WithoutAbsent(Entries(), key);
        return false;
      }
      var idx := table[key];
      ghost var s0 := slots;
      DeleteSlot(table, slots, key, Entry(zeroK, zeroV, true));
      table := table - {key};
      slots := slots[idx := slots[idx].(deleted := true)];
      deletedCount := deletedCount + 1;
      slots := slots[idx := slots[idx].(key := zeroK)];
      slots := slots[idx := slots[idx].(value := zeroV)];
      assert slots == s0[idx := Entry(zeroK, zeroV, true)];
      if deletedCount * 2 > |slots| {
        compact();
      }
      return true;
    }

    /** Rebuilds the slot array from the live slots, in order, re-pointing each key. */
    method compact()
      requires Consistent()
      modifies this
      ensures Valid()
      ensures slots == Kept(old(slots)) && deletedCount == 0
      ensures Entries() == old(Entries())
    {
      ghost var s0, t0 := slots, table;
      RebuildStart(s0, t0);
      var newSlots := [];
      var i := 0;
      while i < |slots|
        invariant slots == s0
        invariant RebuildInv(s0, t0, newSlots, table, i)
      {
        RebuildStep(s0, t0, newSlots, table, i);
        var e := slots[i];
        if !e.deleted {
          table := table[e.key := |newSlots|];
          newSlots := newSlots + [e];
        }
        i := i + 1;
      }
      RebuildEnd(s0, t0, newSlots, table);
      slots := newSlots;
      deletedCount := 0;
    }

    method All(accept: seq<(K, V)> -> bool) returns (out: seq<(K, V)>)
      requires Valid()
      ensures out == Consume(Entries(), accept)
    {
      out := Traverse(slots, p => p, accept);
      assert Mapped(p => p, Entries()) == Entries();
    }

    method Keys(accept: seq<K> -> bool) returns (out: seq<K>)
      requires Valid()
      ensures out == Consume(Mapped(Key, Entries()), accept)
    {
      out := Traverse(slots, Key, accept);
    }

    method Values(accept: seq<V> -> bool) returns (out: seq<V>)
      requires Valid()
      ensures out == Consume(Mapped(Value, Entries()), accept)
    {
      out := Traverse(slots, Value, accept);
    }

    function Len(): (n: int)
      reads this
      requires Valid()
      ensures n == |Entries()|
    {
      IndexedCard(table, slots);
      |table|
    }

    function Has(key: K): (b: bool)
      reads this
      requires Valid()
      ensures b <==> Lookup(Entries(), key).Some?
    {
      IndexedLookup(table, slots, key);
      key in table
    }

    method Clear()
      requires Valid()
      modifies this
      ensures Valid() && Entries() == []
      ensures table == map[] && slots == [] && deletedCount == 0
    {
      table := map[];
      slots := slots[..0];
      deletedCount := 0;
    }

    /** The value under `key`, or `defaultVal` when there is none. */
    function GetOr(key: K, defaultVal: V): (r: V)
      reads this
      requires Valid()
      ensures Lookup(Entries(), key).Some? ==> r == Lookup(Entries(), key).value
      ensures Lookup(Entries(), key).None? ==> r == defaultVal
    {
      match Get(key)
      case Some(v) => v
      case None => defaultVal
    }
  }
}
