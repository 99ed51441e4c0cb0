/** concurrentmap: a plain hash map split into 256 shards, each guarded by its own lock.

    Locks are not modelled: every operation is one sequential step on the shard that owns the key.
    A shard's data is a Dafny `map`; the field `shards` holds all 256 of them. */
module ConcurrentMap {
  import opened Iteration
  import opened Shards

  class Map<K(==, !new), V> {
    var shards: seq<map<K, V>>
    /** The key hash the router uses (Go's runtime map hash). */
    const hash: K -> bv64

    /** There are 256 shards and every key sits in the shard its hash selects. */
    ghost predicate Valid()
      reads this
    {
      && |shards| == ShardCount
      && forall i, k :: 0 <= i < |shards| && k in shards[i] ==> ShardOf(hash(k)) == i
    }

    /** The shard a key is routed to. */
    function Owner(key: K): (i: nat)
      ensures i < ShardCount
    {
      ShardOf(hash(key))
    }

    constructor (hash: K -> bv64)
      ensures Valid() && this.hash == hash
      ensures forall k :: Get(k) == None
    {
      this.hash := hash;
      var empty: seq<map<K, V>> := [];
      var i := 0;
      while i < ShardCount
        invariant i == |empty| <= ShardCount
        invariant forall j :: 0 <= j < i ==> empty[j] == map[]
      {
        empty := empty + [map[]];
        i := i + 1;
      }
      shards := empty;
    }

    /** Consulting only the owning shard finds the key wherever the map holds it. */
    function Get(key: K): (r: Option<V>)
      reads this
      requires Valid()
      ensures r.Some? <==> exists i :: 0 <= i < |shards| && key in shards[i]
      ensures forall i :: 0 <= i < |shards| && key in shards[i] ==> r == Some(shards[i][key])
    {
      var s := Owner(key);
      if key in shards[s] then Some(shards[s][key]) else None
    }

    method Put(key: K, value: V)
      requires Valid()
      modifies this
      ensures Valid()
      ensures Get(key) == Some(value)
      ensures forall k :: k != key ==> Get(k) == old(Get(k))
      ensures var s := Owner(key); shards == old(shards)[s := old(shards)[s][key := value]]
    {
      var s := Owner(key);
      ghost var before := shards;
      shards := shards[s := shards[s][key := value]];
      assert forall i :: 0 <= i < |shards| && i != s ==> shards[i] == before[i];
      forall i, k | 0 <= i < |shards| && k in shards[i] ensures ShardOf(hash(k)) == i {
        if i == s && k != key {
          assert k in before[s];
        }
      }
      forall k | k != key ensures Get(k) == old(Get(k)) {
        assert Owner(k) == s ==> (k in shards[s] <==> k in before[s]);
      }
    }

    method Delete(key: K)
      requires Valid()
      modifies this
      ensures Valid()
      ensures Get(key) == None
      ensures forall k :: k != key ==> Get(k) == old(Get(k))
      ensures var s := Owner(key); shards == old(shards)[s := old(shards)[s] - {key}]
    {
      var s := Owner(key);
      shards := shards[s := shards[s] - {key}];
    }

    /** Looks the key up and removes it in the same step. */
    method Pop(key: K) returns (r: Option<V>)
      requires Valid()
      modifies this
      ensures Valid()
      ensures r == old(Get(key))
      ensures Get(key) == None
      ensures forall k :: k != key ==> Get(k) == old(Get(k))
      ensures r.None? ==> shards == old(shards)
    {
      var s := Owner(key);
      if key !in shards[s] {
        return None;
      }
      r := Some(shards[s][key]);
      ghost var before := shards;
      shards := shards[s := shards[s] - {key}];
      assert forall i :: 0 <= i < |shards| && i != s ==> shards[i] == before[i];
    }
  }
}
