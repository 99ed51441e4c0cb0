/** Hash routing shared by the sharded maps: a key lives in shard `hash(key) & 255` of 256.

    The hash itself comes from Go runtime internals; the model takes it as a parameter, a
    deterministic function from keys to 64-bit words. */
module Shards {

  /** Number of shards; a power of two so that a mask selects one. */
  const ShardCount: nat := 256
  const ShardMask: bv64 := 255

  /** The shard that owns a key whose hash is `h`: the low eight bits of the hash. */
  function ShardOf(h: bv64): (i: nat)
    ensures i < ShardCount
  {
    var low := h & ShardMask;
    assert low <= 255;
    low as nat
  }
}
