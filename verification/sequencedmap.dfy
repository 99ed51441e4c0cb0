/** sequencedmap: an insertion-ordered map over a tombstoned slot array, compacted in place
    once more than 1024 slots, and more than half of all slots, are tombstones. */
module SequencedMap {
  import opened Iteration
  import opened Slots
  import Streams
  import Streams2

  /** Compaction runs only past this many tombstones. */
  const CompactMin := 1024

  /** What `PopFirst` as written ends with: the removed pair, nothing to pop, or the index
      out of range at which Go's bounds check panics. */
  datatype PopResult<K, V> = Popped(key: K, value: V) | NotFound | IndexOutOfRange(index: int)

  class Map<K(==), V> {
    var table: map<K, int>
    var slots: seq<Entry<K, V>>
    var deletedCount: int
    /** The zero values of K and V, which Go writes into tombstones and returns on a miss. */
    const zeroK: K
    const zeroV: V

    ghost predicate Valid()
      reads this
    {
      Indexed(table, slots) && deletedCount == Tombstones(slots)
    }

    /** The map's contents: its live (key, value) pairs in insertion order. */
    ghost function Entries(): seq<(K, V)>
      reads this
    {
      Live(slots)
    }

    constructor (zeroK: K, zeroV: V)
      ensures Valid() && Entries() == []
      ensures table == map[] && slots == [] && deletedCount == 0
      ensures this.zeroK == zeroK && this.zeroV == zeroV
    {
      table := map[];
      slots := [];
      deletedCount := 0;
      this.zeroK := zeroK;
      this.zeroV := zeroV;
    }

    /** Capacity is a hint about allocation only; `make` refuses a negative one. */
    constructor NewWithCapacity(cap: int, zeroK: K, zeroV: V)
      requires cap >= 0
      ensures Valid() && Entries() == []
      ensures table == map[] && slots == [] && deletedCount == 0
      ensures this.zeroK == zeroK && this.zeroV == zeroV
    {
      table := map[];
      slots := [];
      deletedCount := 0;
      this.zeroK := zeroK;
      this.zeroV := zeroV;
    }

    /** The index lookup agrees with the reference lookup over the contents. */
    function Get(key: K): (r: Option<V>)
      reads this
      requires Valid()
      ensures r == Lookup(Entries(), key)
      ensures r.Some? <==> key in table
    {
      IndexedLookup(table, slots, key);
      if key !in table || slots[table[key]].deleted then None
      else Some(slots[table[key]].value)
    }

    method Put(key: K, val: V)
      requires Valid()
      modifies this
      ensures Valid()
      ensures Entries() == Upsert(old(Entries()), key, val)
      ensures deletedCount == old(deletedCount)
      ensures key in old(table) ==>
        && table == old(table)
        && slots == old(slots)[old(table)[key] := old(slots)[old(table)[key]].(value := val)]
      ensures key !in old(table) ==>
        && table == old(table)[key := |old(slots)|]
        && slots == old(slots) + [Entry(key, val, false)]
    {
      if key in table {
        var idx := table[key];
        PutExisting(table, slots, key, val);
        slots := slots[idx := slots[idx].(value := val)];
        return;
      }
      PutNew(table, slots, key, val);
      table := table[key := |slots|];
      slots := slots + [Entry(key, val, false)];
    }

    method Delete(key: K) returns (present: bool)
      requires Valid()
      modifies this
      ensures Valid()
      ensures present <==> key in old(table)
      ensures Entries() == Without(old(Entries()), key)
      ensures !present ==> table == old(table) && slots == old(slots) && deletedCount == old(deletedCount)
      ensures present ==>
        var s1 := old(slots)[old(table)[key] := Entry(zeroK, zeroV, true)];
        var d := old(deletedCount) + 1;
        if d > CompactMin && d * 2 > |s1| then slots == Kept(s1) && deletedCount == 0
        else table == old(table) - {key} && slots == s1 && deletedCount == d
    {
      if key !in table {
        IndexedLookup(table, slots, key);
        LookupNoneAbsent(Entries(), key);
        WithoutAbsent(Entries(), key);
        return false;
      }
      var idx := table[key];
      DeleteSlot(table, slots, key, Entry(zeroK, zeroV, true));
      table := table - {key};
      slots := slots[idx := Entry(zeroK, zeroV, true)];
      deletedCount := deletedCount + 1;
      if deletedCount > CompactMin && deletedCount * 2 > |slots| {
        Compact();
      }
      return true;
    }

    /** Drops every tombstone in place, keeping the live slots in order and re-pointing the index. */
    method Compact()
      requires Valid()
      modifies this
      ensures Valid()
      ensures slots == Kept(old(slots)) && deletedCount == 0
      ensures Entries() == old(Entries())
    {
      if deletedCount == 0 {
        NoTombstonesKept(slots);
        return;
      }
      ghost var s0, t0 := slots, table;
      var j := MoveLiveForward();
      CompactEnd(s0, t0, slots, table, j);
      ZeroTail(j);
      slots := slots[..j];
      deletedCount := 0;
    }

    /** The two-index loop of `Compact`: each live slot is moved down to the next free position
        `j` and its key re-pointed there; returns the number of live slots. */
    method MoveLiveForward() returns (j: int)
      requires Valid()
      modifies this
      ensures CompactInv(old(slots), old(table), slots, table, |old(slots)|, j)
      ensures deletedCount == old(deletedCount)
    {
      ghost var s0, t0 := slots, table;
      CompactStart(s0, t0);
      j := 0;
      var i := 0;
      while i < |slots|
        invariant CompactInv(s0, t0, slots, table, i, j)
        invariant deletedCount == old(deletedCount)
      {
        CompactStep(s0, t0, slots, table, i, j);
        if !slots[i].deleted {
          if i != j {
            slots := slots[j := slots[i]];
            table := table[slots[j].key := j];
          }
          j := j + 1;
        }
        i := i + 1;
      }
    }

    /** The tail-clearing loop of `Compact`: every slot from `j` on is overwritten with a zero
        entry, so that the backing array no longer refers to moved keys and values. */
    method ZeroTail(j: int)
      requires 0 <= j <= |slots|
      modifies this
      ensures table == old(table) && deletedCount == old(deletedCount)
      ensures |slots| == |old(slots)| && slots[..j] == old(slots)[..j]
      ensures forall m :: j <= m < |slots| ==> slots[m] == Entry(zeroK, zeroV, false)
    {
      var k := j;
      while k < |slots|
        invariant j <= k <= |slots| == |old(slots)|
        invariant slots[..j] == old(slots)[..j]
        invariant table == old(table) && deletedCount == old(deletedCount)
        invariant forall m :: j <= m < k ==> slots[m] == Entry(zeroK, zeroV, false)
      {
        UpdatePastPrefix(slots, j, k, Entry(zeroK, zeroV, false));
        slots := slots[k := Entry(zeroK, zeroV, false)];
        k := k + 1;
      }
    }

    method All(accept: seq<(K, V)> -> bool) returns (out: seq<(K, V)>)
      requires Valid()
      ensures out == Consume(Entries(), accept)
    {
      out := Traverse(slots, p => p, accept);
      assert Mapped(p => p, Entries()) == Entries();
    }

    method Keys(accept: seq<K> -> bool) returns (out: seq<K>)
      requires Valid()
      ensures out == Consume(Mapped(Key, Entries()), accept)
    {
      out := Traverse(slots, Key, accept);
    }

    method Values(accept: seq<V> -> bool) returns (out: seq<V>)
      requires Valid()
      ensures out == Consume(Mapped(Value, Entries()), accept)
    {
      out := Traverse(slots, Value, accept);
    }

    function Len(): (n: int)
      reads this
      requires Valid()
      ensures n == |Entries()|
    {
      IndexedCard(table, slots);
      |table|
    }

    function Has(key: K): (b: bool)
      reads this
      requires Valid()
      ensures b <==> Lookup(Entries(), key).Some?
    {
      IndexedLookup(table, slots, key);
      key in table
    }

    method Clear()
      requires Valid()
      modifies this
      ensures Valid() && Entries() == []
      ensures table == map[] && slots == [] && deletedCount == 0
    {
      table := map[];
      slots := slots[..0];
      deletedCount := 0;
    }

    /** Reverse insertion order, as far as the consumer takes it; reads the slots only. */
    function Backward(accept: seq<(K, V)> -> bool): (r: seq<(K, V)>)
      reads this
      ensures r == Consume(Reverse(Entries()), accept)
    {
      Slots.Backward(slots, accept)
    }

    /** The map's pair stream, on a cell of its own. Its iterator ranges over the slot array
        itself, so every tombstone comes out as a (zero key, zero value) pair: the pairs are
        the contents only while there is no tombstone. */
    method Stream2() returns (s: Streams2.Stream2<K, V>)
      ensures s.Err() != null && fresh(s.wire) && s.wire.value == None
      ensures forall c :: s.run(c) == Streams.Lazy(Pairs(slots), None)
      ensures Valid() ==> (s.run(None).items == Entries() <==> deletedCount == 0)
    {
      var cell := new Streams.Cell();
      s := Streams2.New2(Pairs(slots), cell);
      AllSlotsShowTombstones(slots);
    }

    /** The pair stream as evidently intended: the contents, in insertion order. */
    method Stream2Live() returns (s: Streams2.Stream2<K, V>)
      ensures s.Err() != null && fresh(s.wire) && s.wire.value == None
      ensures forall c :: s.run(c) == Streams.Lazy(Entries(), None)
    {
      var cell := new Streams.Cell();
      s := Streams2.New2(Live(slots), cell);
    }

    /** Removes the newest live pair; None stands for Go's (zero, zero, false). */
    method PopLast() returns (r: Option<(K, V)>)
      requires Valid()
      modifies this
      ensures Valid()
      ensures old(Entries()) == [] ==> r == None && table == old(table) && slots == old(slots) && deletedCount == old(deletedCount)
      ensures old(Entries()) != [] ==>
        r == Some(old(Entries())[|old(Entries())| - 1]) && Entries() == old(Entries())[..|old(Entries())| - 1]
    {
      var i := |slots| - 1;
      while i >= 0
        invariant -1 <= i < |slots|
        invariant DeadAfter(slots, i)
      {
        if !slots[i].deleted {
          var k, v := slots[i].key, slots[i].value;
          DeadSuffix(slots, i);
          KeptPrefix(slots, i);
          IndexedUnique(table, slots);
          WithoutLast(Entries());
          var _ := Delete(k);
          return Some((k, v));
        }
        i := i - 1;
      }
      DeadSuffix(slots, -1);
      assert slots[..0] == [];
      return None;
    }

    /** `PopFirst` as written: its index walks downwards, so it pops `slots[0]` when that slot is
        live and otherwise indexes `slots[-1]`. */
    method PopFirst() returns (r: PopResult<K, V>)
      requires Valid()
      modifies this
      ensures Valid()
      ensures old(slots) == [] ==> r == NotFound
      ensures old(slots) != [] && old(slots)[0].deleted ==> r == IndexOutOfRange(-1)
      ensures r.NotFound? || r.IndexOutOfRange? ==>
        table == old(table) && slots == old(slots) && deletedCount == old(deletedCount)
      ensures old(slots) != [] && !old(slots)[0].deleted ==>
        r == Popped(old(Entries())[0].0, old(Entries())[0].1) && Entries() == old(Entries())[1..]
    {
      var i := 0;
      while i < |slots|
        invariant i == 0 || (i == -1 && slots != [] && slots[0].deleted)
        invariant table == old(table) && slots == old(slots) && deletedCount == old(deletedCount)
        decreases i + 1
      {
        if i < 0 {
          return IndexOutOfRange(i);
        }
        if !slots[i].deleted {
          var k, v := slots[i].key, slots[i].value;
          PopFront();
          var _ := Delete(k);
          return Popped(k, v);
        }
        i := i - 1;
      }
      return NotFound;
    }

    /** `PopFirst` as evidently intended: a forward scan to the oldest live pair. */
    method PopOldest() returns (r: Option<(K, V)>)
      requires Valid()
      modifies this
      ensures Valid()
      ensures old(Entries()) == [] ==> r == None && table == old(table) && slots == old(slots) && deletedCount == old(deletedCount)
      ensures old(Entries()) != [] ==> r == Some(old(Entries())[0]) && Entries() == old(Entries())[1..]
    {
      var i := 0;
      while i < |slots|
        invariant 0 <= i <= |slots|
        invariant forall j :: 0 <= j < i ==> slots[j].deleted
      {
        if !slots[i].deleted {
          var k, v := slots[i].key, slots[i].value;
          DeadPrefix(slots, i);
          SplitAt(slots, i);
          IndexedUnique(table, slots);
          WithoutFirst(Entries());
          var _ := Delete(k);
          return Some((k, v));
        }
        i := i + 1;
      }
      DeadPrefix(slots, i);
      assert slots[..i] == slots;
      return None;
    }

    /** The first live pair, when `slots[0]` is live. */
    lemma PopFront()
      requires Valid() && slots != [] && !slots[0].deleted
      ensures Entries() != [] && Entries()[0] == (slots[0].key, slots[0].value)
      ensures UniqueKeys(Entries()) && Without(Entries(), slots[0].key) == Entries()[1..]
    {
      SplitAt(slots, 0);
      assert slots[..0] == [];
      IndexedUnique(table, slots);
      WithoutFirst(Entries());
    }

    function GetOr(key: K, defaultVal: V): (r: V)
      reads this
      requires Valid()
      ensures Lookup(Entries(), key).Some? ==> r == Lookup(Entries(), key).value
      ensures Lookup(Entries(), key).None? ==> r == defaultVal
    {
      match Get(key)
      case Some(v) => v
      case None => defaultVal
    }

    method Set(key: K, val: V) returns (m: Map<K, V>)
      requires Valid()
      modifies this
      ensures m == this && Valid()
      ensures Entries() == Upsert(old(Entries()), key, val)
    {
      Put(key, val);
      return this;
    }

    method Remove(key: K) returns (m: Map<K, V>)
      requires Valid()
      modifies this
      ensures m == this && Valid()
      ensures Entries() == Without(old(Entries()), key)
    {
      var _ := Delete(key);
      return this;
    }
  }
}
