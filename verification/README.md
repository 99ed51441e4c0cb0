# basin, modelled in Dafny

basin is a Go library of generic containers and lazy streams. This project models its core and proves
properties about the model:

- **Insertion-ordered maps with tombstones.** `sequencedmap`, `orderedmap` and `map` keep a slice of slots
  in insertion order and a hash index from key to slot. Deleting a key turns its slot into a tombstone.
  Once enough tombstones pile up, the slice is compacted. The shared theory of slots, tombstones and the
  index is in `slots.dfy`. Each map is a class (`sequencedmap.dfy`, `orderedmap.dfy`, `ordered.dfy`) whose
  methods update the slots, the index and the tombstone count in place. Every one of them is proved
  against the abstract list of live pairs, `Entries()`.
- **Sharded maps.** `concurrentmap` routes a key to one of 256 shards by the low byte of its hash
  (`shards.dfy`, `concurrentmap.dfy`). `concurrentsequencedmap` stamps every write with a global ticket
  and iterates by a k-way merge on the tickets (`concurrentsequencedmap.dfy`). `concurrentsortedmap`
  merges 256 sorted shards through a min-heap keyed by the pair's key (`concurrentsortedmap.dfy`).
- **A binary heap** over a slice, either min or max, with the Go slice's spare backing capacity made
  explicit (`heap.dfy`).
- **Lazy streams.** `Stream[T]` and `Stream2[K, V]` pair a push iterator with a pointer to an error cell
  that stages may write and terminals read (`streams.dfy`, `streams2.dfy`).

A Go push iterator `iter.Seq` is modelled by what it would yield if driven to the end. The consumer
(`yield`) is a total function from everything delivered so far to "continue". `Iteration.Consume` is
the prefix the consumer actually receives, which includes the item it refused (`iteration.dfy`).

A stream is `Stream(run, wire, held)`:
- `run` maps the value of the error cell at the moment the pipeline starts to a `Lazy` result. That
  result is the items yielded and the error the stage writes into the cell, if any.
- `wire` is the cell shared by the pipeline.
- `held` says whether this stage still carries the pointer (`err` in Go).
`Err()` is the stage's own pointer, and terminals read the cell through it. A stream is `Reportable`
when every error a run can write lands in a cell the stage's own pointer can read.

Go's zero values are constructor parameters (`zeroK`, `zeroV`, `zero`). Go's `(v, ok)` results become
`Option`, and `(v, err)` results become `Option<Error>` beside the value. The hash function is a
parameter `hash: K -> bv64`. Integer priorities stand for `cmp.Ordered`.

## Model

| member | source | states |
|---|---|---|
| Iteration.StopAt | sequencedmap/ordered.go:125-136 | the push loop stops at an index within the items, no earlier than where it started |
| Iteration.Consume | sequencedmap/ordered.go:125-136 | what a consumer receives is a prefix of the items |
| Iteration.StopAtSound | sequencedmap/ordered.go:125-136 | every prefix before the stop is accepted, and the stop is at the end or at the first refused prefix |
| Iteration.ConsumeSound | sequencedmap/ordered.go:125-136 | every proper prefix of what was received was accepted, and a short delivery ends in a refusal |
| Iteration.ConsumeAll | sequencedmap/ordered.go:125-136 | a consumer that accepts every prefix receives all the items |
| Iteration.ConsumeEverything | sequencedmap/ordered.go:125-136 | a consumer that never stops receives every item |
| Iteration.ConsumeStep | sequencedmap/ordered.go:125-136 | one push step: a refusal ends delivery with that item included; an acceptance moves on |
| Iteration.ConsumeEnd | sequencedmap/ordered.go:125-136 | a loop that reached the end delivered everything |
| Iteration.PrefixesAccepted | sequencedmap/ordered.go:125-136 | accepted prefixes stay accepted when the delivery grows by an accepted item |
| Shards.ShardOf | concurrentmap/map.go:35-38 | the low byte of the hash always names one of the 256 shards |
| Slots.Kept | sequencedmap/ordered.go:91-122 | compaction never lengthens the slot list |
| Slots.Pairs | sequencedmap/ordered.go:172-176 | ranging over every slot yields one pair per slot, tombstones included |
| Slots.SetValue | sequencedmap/ordered.go:51-54 | overwriting a value keeps the length of the pair list |
| Slots.LookupAt | sequencedmap/ordered.go:36-43 | with unique keys, looking up a stored key finds its value |
| Slots.LookupAbsent | sequencedmap/ordered.go:36-43 | a key stored nowhere is not found |
| Slots.LookupFound | sequencedmap/ordered.go:36-43 | a key that is found is stored with the value found |
| Slots.UpsertLookup | sequencedmap/ordered.go:49-61 | after a put the key maps to the new value, every other key is unchanged, and keys stay unique |
| Slots.WithoutLookup | sequencedmap/ordered.go:64-88 | after a delete the key is absent and every other key is unchanged |
| Slots.WithoutSubsequence | sequencedmap/ordered.go:64-88 | a delete adds no pair and leaves no pair with that key |
| Slots.WithoutAbsent | sequencedmap/ordered.go:65-68 | deleting an absent key changes nothing |
| Slots.LookupNoneAbsent | sequencedmap/ordered.go:36-43 | a key that is not found appears in no pair |
| Slots.UpdateKeepsOrder | sequencedmap/ordered.go:51-54 | overwriting an existing key keeps the key order |
| Slots.ReinsertMovesToEnd | sequencedmap/ordered.go:56-60 | a deleted key that is put again goes to the end |
| Slots.WithoutLast | sequencedmap/ordered_access.go:39-50 | deleting the last key drops exactly the last pair |
| Slots.WithoutFirst | sequencedmap/ordered_access.go:25-36 | deleting the first key drops exactly the first pair |
| Slots.DeadSuffix | sequencedmap/ordered_access.go:39-50 | tombstones after index i hide nothing: the live pairs are those up to i |
| Slots.DeadPrefix | sequencedmap/ordered_access.go:25-36 | a run of tombstones at the front holds no live pair |
| Slots.KeptProperties | sequencedmap/ordered.go:91-122 | compaction leaves no tombstones, is idempotent, and drops exactly the tombstones |
| Slots.NoTombstonesKept | sequencedmap/ordered.go:92-94 | compacting a slot list without tombstones changes nothing |
| Slots.AllSlotsShowTombstones | sequencedmap/ordered.go:172-176 | yielding every slot yields the live pairs if and only if there are no tombstones; otherwise one extra pair per tombstone |
| Slots.IndexDetermined | sequencedmap/ordered.go:49-61 | the slot list determines the index |
| Slots.KeptOrigin | sequencedmap/ordered.go:97-110 | every kept slot comes from a live slot of the original, in order |
| Slots.IndexedLookup | sequencedmap/ordered.go:36-43 | a consistent index finds exactly what a search of the live pairs finds, and live keys are unique |
| Slots.IndexedUnique | sequencedmap/ordered.go:49-61 | a consistent index means the live keys are unique |
| Slots.IndexedCard | sequencedmap/ordered.go:183-185 | the index holds as many keys as there are live pairs |
| Slots.PutExisting | sequencedmap/ordered.go:51-54 | rewriting a key's slot in place keeps the index and overwrites the value in the live pairs |
| Slots.PutNew | sequencedmap/ordered.go:56-60 | appending a new slot and indexing it appends the pair to the live pairs |
| Slots.AppendIndexed | sequencedmap/ordered.go:56-60 | appending a new slot keeps the index consistent |
| Slots.DeleteSlot | sequencedmap/ordered.go:71-78 | tombstoning a key's slot removes exactly that key from the live pairs and keeps the index consistent |
| Slots.DeleteSlotLive | sequencedmap/ordered.go:71-78 | tombstoning a key's slot removes exactly that key from the live pairs |
| Slots.DeleteIndexed | sequencedmap/ordered.go:71-78 | dropping the key from the index and tombstoning its slot keeps the index consistent |
| Slots.DeleteLive | sequencedmap/ordered.go:71-78 | with unique keys, deleting a pair's key removes exactly that pair |
| Slots.CompactIndexed | sequencedmap/ordered.go:91-122 | repointing every live key to its compacted position gives a consistent index over the kept slots, with the same live pairs |
| Slots.RebuildStart | orderedmap/ordered.go:87-100 | the rebuild loop's invariant holds before the first slot |
| Slots.RebuildStep | orderedmap/ordered.go:87-100 | one rebuild step keeps the invariant, whether it skips a tombstone or copies a live slot |
| Slots.RebuildEnd | orderedmap/ordered.go:87-100 | at the end the rebuilt list is the kept slots, indexed, with the same live pairs and no tombstones |
| Slots.CompactStart | sequencedmap/ordered.go:97-110 | the in-place compaction loop's invariant holds before the first slot |
| Slots.CompactStep | sequencedmap/ordered.go:97-110 | moving a live slot forward or skipping a tombstone keeps the invariant |
| Slots.CompactEnd | sequencedmap/ordered.go:97-121 | at the end the first j slots are the kept slots, indexed, with the same live pairs |
| Slots.BackwardFromSpec | sequencedmap/ordered_access.go:6-22 | the backward scan from slot i delivers what a consumer takes from the live pairs in reverse |
| Slots.ReverseLiveSnoc | sequencedmap/ordered_access.go:6-22 | walking backward meets the last slot first |
| Slots.Backward | sequencedmap/ordered_access.go:6-22 | iterating backward delivers the live pairs in reverse insertion order, as far as the consumer takes them |
| Slots.Traverse | sequencedmap/ordered.go:125-162 | the forward scan delivers the live pairs (or their keys or values) in insertion order, as far as the consumer takes them |
| SequencedMap.Map.constructor | sequencedmap/ordered.go:21-27 | a new map is consistent and empty |
| SequencedMap.Map.NewWithCapacity | sequencedmap/ordered.go:29-34 | a map made with a capacity hint is consistent and empty |
| SequencedMap.Map.Get | sequencedmap/ordered.go:36-43 | lookup returns the value the live pairs hold for the key, found if and only if the key is indexed |
| SequencedMap.Map.Put | sequencedmap/ordered.go:49-61 | the live pairs become the upsert of the old ones: an existing key is overwritten in its slot, a new key is appended |
| SequencedMap.Map.Delete | sequencedmap/ordered.go:64-88 | reports whether the key was present, removes exactly it, leaves an absent key's map untouched, and compacts when more than 1024 tombstones exceed half the slots |
| SequencedMap.Map.Compact | sequencedmap/ordered.go:91-122 | leaves exactly the kept slots, no tombstones, and the same live pairs |
| SequencedMap.Map.MoveLiveForward | sequencedmap/ordered.go:97-110 | the move loop ends with the kept slots in front and the index repointed |
| SequencedMap.Map.ZeroTail | sequencedmap/ordered.go:115-117 | every slot from j on is zeroed and nothing before j changes |
| SequencedMap.Map.All | sequencedmap/ordered.go:125-136 | delivers the live pairs in insertion order, as far as the consumer takes them |
| SequencedMap.Map.Keys | sequencedmap/ordered.go:139-149 | delivers the live keys in insertion order, as far as the consumer takes them |
| SequencedMap.Map.Values | sequencedmap/ordered.go:152-162 | delivers the live values in insertion order, as far as the consumer takes them |
| SequencedMap.Map.Len | sequencedmap/ordered.go:183-185 | the number of live pairs |
| SequencedMap.Map.Has | sequencedmap/ordered.go:187-190 | true if and only if lookup finds the key |
| SequencedMap.Map.Clear | sequencedmap/ordered.go:192-196 | leaves an empty, consistent map |
| SequencedMap.Map.Backward | sequencedmap/ordered_access.go:6-22 | delivers the live pairs newest first, as far as the consumer takes them |
| SequencedMap.Map.Stream2 | sequencedmap/ordered.go:165-180 | as written, the stream yields one pair per slot, tombstones included; it equals the live pairs if and only if there are no tombstones |
| SequencedMap.Map.Stream2Live | sequencedmap/ordered.go:165-180 | corrected: the stream yields exactly the live pairs in insertion order |
| SequencedMap.Map.PopLast | sequencedmap/ordered_access.go:39-50 | on an empty map returns none and changes nothing; otherwise returns the newest pair and removes exactly it |
| SequencedMap.Map.PopFirst | sequencedmap/ordered_access.go:25-36 | as written: with a tombstone in slot 0 the loop indexes slot -1; with a live slot 0 it pops that pair |
| SequencedMap.Map.PopOldest | sequencedmap/ordered_access.go:25-36 | corrected: on an empty map returns none and changes nothing; otherwise returns the oldest pair and removes exactly it |
| SequencedMap.Map.PopFront | sequencedmap/ordered_access.go:25-36 | a live slot 0 holds the oldest pair, and deleting its key drops exactly that pair |
| SequencedMap.Map.GetOr | sequencedmap/ordered_fluent.go:4-10 | the stored value when the key is present, the default otherwise |
| SequencedMap.Map.Set | sequencedmap/ordered_fluent.go:13-16 | puts the pair and returns the same map |
| SequencedMap.Map.Remove | sequencedmap/ordered_fluent.go:19-22 | deletes the key and returns the same map |
| OrderedMap.Map.constructor | orderedmap/ordered.go:21-27 | a new map is consistent and empty |
| OrderedMap.Map.NewWithCapacity | orderedmap/ordered.go:29-34 | a map made with a capacity hint is consistent and empty |
| OrderedMap.Map.Get | orderedmap/ordered.go:36-43 | lookup returns the value the live pairs hold for the key, found if and only if the key is indexed |
| OrderedMap.Map.Put | orderedmap/ordered.go:46-59 | the live pairs become the upsert of the old ones: an existing key is overwritten in its slot, a new key is appended |
| OrderedMap.Map.Delete | orderedmap/ordered.go:62-84 | reports whether the key was present, removes exactly it, and compacts whenever tombstones exceed half the slots |
| OrderedMap.Map.compact | orderedmap/ordered.go:87-100 | rebuilds exactly the kept slots with no tombstones and the same live pairs |
| OrderedMap.Map.All | orderedmap/ordered.go:103-114 | delivers the live pairs in insertion order, as far as the consumer takes them |
| OrderedMap.Map.Keys | orderedmap/ordered.go:117-127 | delivers the live keys in insertion order, as far as the consumer takes them |
| OrderedMap.Map.Values | orderedmap/ordered.go:130-140 | delivers the live values in insertion order, as far as the consumer takes them |
| OrderedMap.Map.Len | orderedmap/ordered.go:161-163 | the number of live pairs |
| OrderedMap.Map.Has | orderedmap/ordered.go:165-168 | true if and only if lookup finds the key |
| OrderedMap.Map.Clear | orderedmap/ordered.go:170-174 | leaves an empty, consistent map |
| OrderedMap.Map.Backward | orderedmap/ordered_access.go:6-22 | delivers the live pairs newest first, as far as the consumer takes them |
| OrderedMap.Map.Stream2 | orderedmap/ordered.go:143-158 | as written, the stream yields one pair per slot, tombstones included; it equals the live pairs if and only if there are no tombstones |
| OrderedMap.Map.Stream2Live | orderedmap/ordered.go:143-158 | corrected: the stream yields exactly the live pairs in insertion order |
| Ordered.Map.constructor | map/ordered.go:19-25 | a new map is consistent and empty |
| Ordered.Map.NewWithCapacity | map/ordered.go:27-32 | a map made with a capacity hint is consistent and empty |
| Ordered.Map.Set | map/ordered.go:34-47 | the live pairs become the upsert of the old ones |
| Ordered.Map.Get | map/ordered.go:49-56 | lookup returns the value the live pairs hold for the key, found if and only if the key is indexed |
| Ordered.Map.Delete | map/ordered.go:59-81 | reports whether the key was present, removes exactly it, and compacts whenever tombstones exceed half the slots |
| Ordered.Map.compact | map/ordered.go:84-97 | rebuilds exactly the kept slots with no tombstones and the same live pairs |
| Ordered.Map.All | map/ordered.go:100-111 | delivers the live pairs in insertion order, as far as the consumer takes them |
| Ordered.Map.Keys | map/ordered.go:114-124 | delivers the live keys in insertion order, as far as the consumer takes them |
| Ordered.Map.Values | map/ordered.go:127-137 | delivers the live values in insertion order, as far as the consumer takes them |
| Ordered.Map.Len | map/ordered.go:140-142 | the number of live pairs |
| Ordered.Map.Has | map/ordered.go:144-147 | true if and only if lookup finds the key |
| Ordered.Map.Clear | map/ordered.go:149-153 | leaves an empty, consistent map |
| Ordered.Map.GetOr | map/ordered_fluent.go:4-10 | the stored value when the key is present, the default otherwise |
| ConcurrentMap.Map.Owner | concurrentmap/map.go:35-38 | every key has one owning shard among the 256 |
| ConcurrentMap.Map.constructor | concurrentmap/map.go:22-32 | a new map has 256 empty shards and finds no key |
| ConcurrentMap.Map.Get | concurrentmap/map.go:49-55 | a key is found if and only if some shard holds it, with that shard's value |
| ConcurrentMap.Map.Put | concurrentmap/map.go:41-46 | only the owning shard changes; the key then maps to the value and every other key is unchanged |
| ConcurrentMap.Map.Delete | concurrentmap/map.go:58-63 | only the owning shard changes; the key is then absent and every other key is unchanged |
| ConcurrentMap.Map.Pop | concurrentmap/map.go:67-76 | returns what lookup found before, removes the key, leaves other keys unchanged, and changes nothing when absent |
| ConcurrentSequencedMap.BestFrom | concurrentsequencedmap/map_access.go:33-42 | the scan's result is -1 or a shard index |
| ConcurrentSequencedMap.Best | concurrentsequencedmap/map_access.go:33-42 | the chosen shard is -1 or a shard index |
| ConcurrentSequencedMap.BestFromSpec | concurrentsequencedmap/map_access.go:33-42 | the scan picks the first shard whose head has the smallest ticket below the sentinel |
| ConcurrentSequencedMap.BestSpec | concurrentsequencedmap/map_access.go:33-46 | -1 if and only if no head has a ticket below the sentinel; otherwise a head with the smallest ticket |
| ConcurrentSequencedMap.StampableHeads | concurrentsequencedmap/map_access.go:33-42 | when all tickets are below the sentinel, every non-empty shard is a candidate |
| ConcurrentSequencedMap.MergedExactlyOnce | concurrentsequencedmap/map_access.go:6-57 | the merge yields only stored pairs, and yields each exactly once when all tickets are below the sentinel |
| ConcurrentSequencedMap.MergedAtLeast | concurrentsequencedmap/map_access.go:6-57 | a lower bound on every stored ticket bounds every merged ticket |
| ConcurrentSequencedMap.MergedAscending | concurrentsequencedmap/map_access.go:6-57 | when every shard is in ticket order, the merge is in ticket order |
| ConcurrentSequencedMap.MergedStep | concurrentsequencedmap/map_access.go:33-57 | one merge step hands out the best head and continues with only that shard advanced |
| ConcurrentSequencedMap.DeliveredStep | concurrentsequencedmap/map_access.go:47-57 | the consumer receives the best head as `f` of its key and value, then the rest of the merge |
| ConcurrentSequencedMap.OverwriteBreaksOrder | concurrentsequencedmap/map.go:52-62 | overwriting a key restamps it in place, so a shard need not be in ticket order |
| ConcurrentSequencedMap.BestShard | concurrentsequencedmap/map_access.go:33-42 | the scan loop computes the best shard |
| ConcurrentSequencedMap.MergeShards | concurrentsequencedmap/map_access.go:6-57 | the merge loop delivers the ticket-ordered merge, as far as the consumer takes it |
| ConcurrentSequencedMap.MergeAdvance | concurrentsequencedmap/map_access.go:44-54 | one round of the merge loop hands out the best head and keeps the loop's invariant, or ends with the consumer's result when it refuses |
| ConcurrentSequencedMap.EntriesOf | concurrentsequencedmap/map_access.go:10-30 | one stream per shard, holding that shard's live entries |
| ConcurrentSequencedMap.NewShards | concurrentsequencedmap/map.go:35-44 | 256 distinct, fresh, empty shards |
| ConcurrentSequencedMap.AddShard | concurrentsequencedmap/map.go:38-40 | appends one fresh, empty shard distinct from those before it |
| ConcurrentSequencedMap.Map.Owner | concurrentsequencedmap/map.go:46-49 | every key has one owning shard among the 256 |
| ConcurrentSequencedMap.Map.constructor | concurrentsequencedmap/map.go:35-44 | 256 empty shards and a ticket counter at 0 that has not wrapped |
| ConcurrentSequencedMap.Map.Put | concurrentsequencedmap/map.go:52-62 | the counter advances by one modulo 2^64, and the owning shard upserts the pair stamped with the new ticket; until the counter wraps, every other stored entry has an older ticket, stored tickets stay distinct and at most the counter, and a new key keeps an in-order shard in order |
| ConcurrentSequencedMap.Map.TakeTicket | concurrentsequencedmap/map.go:54 | the counter advances by one modulo 2^64 and records a wrap; until it wraps, the new ticket is above every stored ticket |
| ConcurrentSequencedMap.Map.PutShard | concurrentsequencedmap/map.go:56-61 | only the owning shard changes, by upserting the stamped pair; the shards stay distinct, well formed and routed by hash |
| ConcurrentSequencedMap.NextTicket | concurrentsequencedmap/map.go:54 | adding one modulo 2^64 gives 0 exactly when the counter was 2^64-1, and the successor otherwise |
| ConcurrentSequencedMap.PutMembers | concurrentsequencedmap/map.go:52-62 | after a put, each stored entry is the new one or was stored before under another key |
| ConcurrentSequencedMap.StampPut | concurrentsequencedmap/map.go:52-62 | stamping a put with the next ticket keeps every stored ticket in 1..n+1 and pairwise distinct, and leaves every other entry older than the new one |
| ConcurrentSequencedMap.AppendAscending | concurrentsequencedmap/map.go:52-62 | a new key whose ticket is above its shard's goes at the shard's end and keeps the shard in ticket order |
| ConcurrentSequencedMap.TicketsUnique | concurrentsequencedmap/map.go:52-62 | with keys unique per shard, distinct tickets mean no two stored entries share a ticket |
| ConcurrentSequencedMap.Map.TicketsPairwiseDistinct | concurrentsequencedmap/map.go:52-62 | until the counter wraps, no two stored entries share a ticket |
| ConcurrentSequencedMap.Map.Get | concurrentsequencedmap/map.go:65-72 | a key is found if and only if some shard indexes it, with that shard's unstamped value |
| ConcurrentSequencedMap.Map.Delete | concurrentsequencedmap/map.go:75-81 | the owning shard drops the key, which is then absent, and the ticket invariant still holds |
| ConcurrentSequencedMap.Map.DeleteShard | concurrentsequencedmap/map.go:76-80 | only the owning shard changes, by dropping the key; the shards stay distinct, well formed and routed by hash |
| ConcurrentSequencedMap.StampDelete | concurrentsequencedmap/map.go:75-81 | dropping a key keeps every stored ticket in range and pairwise distinct |
| ConcurrentSequencedMap.Map.Len | concurrentsequencedmap/map.go:84-92 | the sum of the shard sizes is the number of stored pairs |
| ConcurrentSequencedMap.Map.Snapshot | concurrentsequencedmap/map_access.go:10-30 | the per-shard streams the merge starts from |
| ConcurrentSequencedMap.Map.All | concurrentsequencedmap/map_access.go:6-57 | delivers the ticket-ordered merge of all shards, as far as the consumer takes it; until the counter wraps or reaches 2^64-1, the merge holds every stored entry exactly once, as many as `Len` counts |
| ConcurrentSequencedMap.Map.StoredStampable | concurrentsequencedmap/map_access.go:33-42 | until the counter wraps or reaches 2^64-1, every stored ticket is below the merge's sentinel |
| ConcurrentSequencedMap.StampableUpTo | concurrentsequencedmap/map_access.go:33-42 | tickets bounded by a number below 2^64-1 are all below the sentinel |
| ConcurrentSequencedMap.Map.Keys | concurrentsequencedmap/map_access.go:60-69 | delivers the merge's keys |
| ConcurrentSequencedMap.Map.Values | concurrentsequencedmap/map_access.go:72-80 | delivers the merge's values |
| Heap.GoDiv | heap/heap.go:104-113 | Go's truncating division agrees with Euclidean division for non-negative dividends and gives 0 just below zero |
| Heap.RootFirst | heap/heap.go:80-87 | in an ordered heap no element comes before the root |
| Heap.UpStep | heap/heap.go:104-113 | swapping a child with a parent it beats keeps the sift-up invariant one level higher |
| Heap.DownStep | heap/heap.go:115-133 | swapping with the best child keeps the sift-down invariant one level lower |
| Heap.DownDone | heap/heap.go:115-133 | sift-down stops with every slot ordered except possibly the start, and fully ordered if it moved |
| Heap.OrderedKeep | heap/heap.go:58-78 | heap order depends only on the first n slots |
| Heap.AppendReady | heap/heap.go:31-34 | appending to an ordered heap sets up sift-up from the new slot |
| Heap.RootReady | heap/heap.go:39-46 | overwriting the root sets up sift-down from the root |
| Heap.LastToRootReady | heap/heap.go:58-78 | swapping the last slot to the root sets up sift-down over the rest |
| Heap.Heap.New | heap/heap.go:19-21 | an empty min-heap |
| Heap.Heap.NewMax | heap/heap.go:24-26 | an empty max-heap |
| Heap.Heap.Len | heap/heap.go:28 | the number of elements |
| Heap.Heap.less | heap/heap.go:135-140 | smaller priority first for a min-heap, larger first for a max-heap |
| Heap.Heap.swap | heap/heap.go:142-144 | exchanges two slots and keeps the multiset |
| Heap.Heap.up | heap/heap.go:104-113 | restores heap order and keeps the multiset |
| Heap.Heap.down | heap/heap.go:115-133 | orders the first n slots, leaves the rest alone, keeps the multiset, and reports whether it moved anything |
| Heap.Heap.downStep | heap/heap.go:117-131 | one round of sift-down: stops when no child belongs above node i, otherwise swaps i with its highest child and keeps the sift-down invariant |
| Heap.Heap.topChild | heap/heap.go:118-125 | the child of node i that belongs highest, the left one among equals |
| Heap.Heap.Insert | heap/heap.go:31-34 | adds exactly the new element and keeps heap order |
| Heap.Heap.Replace | heap/heap.go:39-46 | swaps the root for the new element, or inserts it into an empty heap, and keeps heap order |
| Heap.Heap.Fix | heap/heap.go:49-56 | restores heap order after slot i changed, keeps the multiset, and ignores an out-of-range index |
| Heap.Heap.Pop | heap/heap.go:58-78 | none on an empty heap; otherwise removes and returns the root, which no element beats, and zeroes the vacated slot |
| Heap.Heap.Vacate | heap/heap.go:69-76 | zeroes the last slot and shortens the slice by one |
| Heap.Heap.Peek | heap/heap.go:80-87 | present if and only if the heap is non-empty, and then an element no other beats |
| Heap.Heap.Drain | heap/heap.go:91-100 | yields popped elements in priority order until the consumer stops, nothing left in the heap ranking above any of them; the heap keeps exactly the rest and ends empty unless the consumer stopped |
| Heap.DrainStep | heap/heap.go:91-100 | handing out a top element of what is left keeps the drained elements in priority order and ahead of everything left |
| ConcurrentSortedMap.Tag | concurrentsortedmap/map_access.go:23-40 | one heap entry per pair of each shard, tagged with its shard |
| ConcurrentSortedMap.TagAdvance | concurrentsortedmap/map_access.go:56-62 | pulling a shard's next pair moves exactly that tagged pair out of what is pending |
| ConcurrentSortedMap.SuffixAdvance | concurrentsortedmap/map_access.go:56-62 | pulling keeps each iterator at a suffix of its shard |
| ConcurrentSortedMap.RestAscending | concurrentsortedmap/map_access.go:56-62 | what remains of a sorted shard is sorted |
| ConcurrentSortedMap.OpenNone | concurrentsortedmap/map_access.go:23-40 | before any shard is opened nothing is held |
| ConcurrentSortedMap.PullInOrder | concurrentsortedmap/map_access.go:56-62 | pulling a sorted shard's next pair into the heap keeps the merge order |
| ConcurrentSortedMap.PullBalanced | concurrentsortedmap/map_access.go:56-62 | pulling keeps every pair in exactly one place: handed out, held or pending |
| ConcurrentSortedMap.OpenEmpty | concurrentsortedmap/map_access.go:23-40 | opening an empty shard pulls nothing |
| ConcurrentSortedMap.OpenCover | concurrentsortedmap/map_access.go:23-40 | after opening shard i, every non-empty shard up to i has a cursor in the heap |
| ConcurrentSortedMap.OpenNext | concurrentsortedmap/map_access.go:23-40 | opening a non-empty shard pushes its first pair and keeps the opening invariant |
| ConcurrentSortedMap.Step | concurrentsortedmap/map_access.go:44-53 | popping the smallest cursor and handing out its pair keeps the order and the balance |
| ConcurrentSortedMap.PopLeast | concurrentsortedmap/map_access.go:44-53 | popping the min-heap hands out a cursor no held cursor beats, and the merge stays balanced with it |
| ConcurrentSortedMap.Refill | concurrentsortedmap/map_access.go:56-62 | refilling from the popped shard restores the merge invariant |
| ConcurrentSortedMap.Exhausted | concurrentsortedmap/map_access.go:56-62 | an exhausted shard needs no cursor |
| ConcurrentSortedMap.PendingAbove | concurrentsortedmap/map_access.go:44-64 | a bound below every remaining pair is below everything pending |
| ConcurrentSortedMap.Finish | concurrentsortedmap/map_access.go:44-64 | whenever the merge stops, it has handed out only stored pairs, in order, each smaller than everything left |
| ConcurrentSortedMap.Complete | concurrentsortedmap/map_access.go:44-64 | when the heap runs empty, every stored pair was handed out exactly once |
| ConcurrentSortedMap.Open | concurrentsortedmap/map_access.go:23-40 | the opening loop yields a valid min-heap holding each non-empty shard's first pair |
| ConcurrentSortedMap.All | concurrentsortedmap/map_access.go:10-66 | delivers stored pairs in ascending key order, all of them unless the consumer stopped |
| ConcurrentSortedMap.MappedPrefix | concurrentsortedmap/map_access.go:69-88 | projecting a prefix is a prefix of the projection |
| ConcurrentSortedMap.Keys | concurrentsortedmap/map_access.go:69-77 | the keys of the merge, as far as the consumer takes them |
| ConcurrentSortedMap.Values | concurrentsortedmap/map_access.go:80-88 | the values of the merge in key order, as far as the consumer takes them |
| ConcurrentSortedMap.FlattenUnique | concurrentsortedmap/map_access.go:10-66 | shards whose keys are unique within and across them hold unique keys together |
| ConcurrentSortedMap.SubUnique | concurrentsortedmap/map_access.go:10-66 | any selection of unique-keyed pairs has unique keys |
| ConcurrentSortedMap.StrictlyAscending | concurrentsortedmap/map_access.go:10-66 | over sorted shards with disjoint keys, the merge hands out strictly ascending keys |
| Streams.Cell.constructor | stream/stream2.go:23-32 | a fresh error cell holds no error |
| Streams.Check | stream/stream2.go:211-216 | an error if and only if the pointer is set and the cell holds one, and then that error |
| Streams.Trip | stream/stream_map.go:23 | a run that fails writes its error into the cell; otherwise the cell keeps its value |
| Streams.FromSeq | stream/stream.go:55-57 | a stream over the items with no pointer, which can never fail |
| Streams.Seq | stream/stream.go:51-53 | exposes the underlying iterator unchanged |
| Streams.Filtered | stream/stream.go:14-24 | keeps only items the predicate accepts, and every accepted item |
| Streams.FilteredConcat | stream/stream.go:14-24 | filtering distributes over concatenation |
| Streams.Filter | stream/stream.go:14-24 | as written, the filtered items with the upstream failure, but without the pointer |
| Streams.TakeFromFirst | stream/stream.go:27-37 | the take loop yields at most n items, and passes the upstream failure on only when it reaches the end without n+1 pulls |
| Streams.Taken | stream/stream.go:27-37 | the first min(n, length) items; the failure passes when the upstream ran out within n+1 pulls |
| Streams.Take | stream/stream.go:27-37 | as written, the taken items, but without the pointer |
| Streams.TakenExactly | stream/stream.go:27-37 | corrected: the same items, failing only when fewer than n items came |
| Streams.TakeTripsAfterEnough | stream/stream.go:30-35 | as written, taking 1 of a stream that fails after its first item still fails; corrected, it does not |
| Streams.DroppedPointerHidesFailure | stream/stream.go:14-37 | Filter and Take of a reportable stream that fails are no longer reportable |
| Streams.FilterReporting | stream/stream.go:14-24 | corrected: keeps the pointer and preserves reportability |
| Streams.TakeReporting | stream/stream.go:27-37 | corrected: keeps the pointer, takes exactly, and preserves reportability |
| Streams.Range | stream/stream.go:51-53 | a loop body sees the items as far as it takes them; the failure is written only if it never broke |
| Streams.Collect | stream/stream.go:40-48 | all items and no error, or no items and the error the cell holds through the stream's pointer |
| Streams.Map | stream/stream_map.go:4-14 | each item mapped, same failure, same pointer; preserves reportability |
| Streams.Attempt | stream/stream_map.go:16-30 | the successful results up to the first failing item, whose error is returned |
| Streams.Fallible | stream/stream_map.go:16-30 | mapped items up to the first failure of fn; otherwise the upstream's failure |
| Streams.MapErr | stream/stream_map.go:16-30 | when the write at line 23 has a cell, the mapped run writes fn's first error there, and the result is reportable |
| Streams.MapErrOverFromSeqPanics | stream/stream_map.go:23 | over `FromSeq`, a failing fn has no cell to write to |
| Streams.FromSeqWired | stream/stream.go:55-57 | corrected: a fresh cell, so MapErr over it is always reportable |
| Streams.Last | stream/stream_terminal.go:7-23 | upstream error with the last item seen, the empty-stream error with the zero value, or the last item |
| Streams.AssocLastWins | stream/stream_terminal.go:27-33 | the map holds exactly the keys of the entries, each with its last value |
| Streams.ToMap | stream/stream_terminal.go:27-33 | the map of all entries, last value winning, with the error from the cell |
| Streams.GroupsFiltered | stream/stream_terminal.go:36-43 | each group is exactly the items with that key, in stream order, and no group is empty |
| Streams.GroupBy | stream/stream_terminal.go:36-43 | the groups of all items, with the error from the cell |
| Streams2.New2 | stream/stream2.go:23-32 | uses the given cell, or allocates a fresh empty one; the stream is reportable |
| Streams2.FromSeq2 | stream/stream2.go:34-38 | a stream over the pairs with a fresh, empty cell |
| Streams2.Keys | stream/stream2.go:58-69 | the keys, same failure, same pointer |
| Streams2.Values | stream/stream2.go:72-83 | the values, same failure, same pointer |
| Streams2.Filter | stream/stream2.go:87-100 | the pairs the predicate keeps, same failure, same pointer |
| Streams2.Take | stream/stream2.go:102-115 | the taken pairs, same pointer |
| Streams2.MapValues | stream/stream2.go:120-131 | values mapped and keys kept, same failure, same pointer |
| Streams2.Map2 | stream/stream2_map.go:6-17 | each pair mapped, same failure, same pointer |
| Streams2.MapErr2 | stream/stream2.go:135-151 | mapped pairs up to fn's first failure, which is written into the cell |
| Streams2.Guarded | stream/stream2_map.go:21-39 | without a readable error the stage stops at fn's first failure but reports only an upstream failure |
| Streams2.Map2Err | stream/stream2_map.go:21-39 | the guarded mapping over the run, same pointer |
| Streams2.ExpandConcat | stream/stream2_map.go:43-62 | expanding distributes over concatenation |
| Streams2.ExpandMember | stream/stream2_map.go:43-62 | a pair is in the expansion if and only if some input pair's expansion holds it |
| Streams2.Spread | stream/stream2_map.go:43-62 | the concatenated expansions; with the breaker set, nothing |
| Streams2.FlatMap2 | stream/stream2_map.go:43-62 | expands every pair, yielding nothing once the cell already holds an error |
| Streams2.Collect | stream/stream2.go:155-166 | all pairs and no error, or no pairs and the error from the cell |
| Streams2.Count | stream/stream2.go:168-177 | the number of pairs and no error, or 0 and the error from the cell |
| Streams2.FoldSplit | stream/stream2.go:181-208 | for an associative fn, reducing a concatenation combines the two reductions |
| Streams2.Reduced | stream/stream2.go:181-208 | the fold of the pairs when there were some and no earlier error; zero values with the empty error or the earlier one otherwise |
| Streams2.Reduce | stream/stream2.go:181-208 | reads the error cell before every pair and returns at the first pair when it is set; checks nothing after the loop; returns the reduction of what the run yields |
| Streams2.ReduceMissesLateFailure | stream/stream2.go:203-207 | a run that fails after yielding a pair still reduces to that pair with no error |
| Streams2.ReduceChecked | stream/stream2.go:181-208 | corrected: a reportable stream whose run fails returns an error |

## Left out

- Locks, atomics and goroutines. Every operation is modelled as one atomic step. `concurrentsortedmap`'s
  pull iterators become sequences whose remainder shrinks as pairs are pulled.
- The internal hash (`internal/hash`) is a parameter `hash: K -> bv64`. Nothing is assumed about it
  beyond being a function.
- `sortedmap` (the B-tree) and `concurrentsortedmap/map.go` are not part of this model. The merge takes
  each shard's contents as a sorted sequence.
- JSON encoding, `stream_math`, the `set` package and `heap_fluent` are not part of this model.
- `FromMap` is not modelled, because Go's map iteration order is unspecified.
- Capacity hints (`NewWithCapacity`) only matter for allocation, and are ignored.
- `Stream.ForEach` is not part of this model. `Last`, `ToMap` and `GroupBy` use it as "run to the end,
  write the failure into the cell, return the cell's error through the stream's own pointer".
- The Go iterators given to `New2` and `FromSeq` are finite, deterministic sequences.
- Early stop inside a stage is modelled only through `Iteration.Consume` and `Streams.Range`. Stages
  describe the run as driven to the end.
- `concurrentsortedmap` calls `h.Push(cursor, k)` (concurrentsortedmap/map_access.go:37, 61), but
  heap/heap.go defines no `Push`. The model uses `Insert(k, cursor)`, priority first.
- Heap and `concurrentsortedmap` priorities are `int`, standing for `cmp.Ordered`. NaN ordering is not
  modelled.
- SequencedMap.Map.Stream2: the iterator reads the map's slots when the run starts. The model reads them
  when `Stream2` is called.
- OrderedMap.Map.Stream2: the run uses the slots as they are when `Stream2` is called. Go's closure reads
  `m.slots` when the run starts (orderedmap/ordered.go:150). `Stream2Live` does the same.
- ConcurrentSequencedMap.MergedExactlyOnce: proves exactly-once delivery only while every ticket is below
  2^64-1. A pair stamped with the sentinel `^uint64(0)` after wrap-around is never chosen by the merge.
- ConcurrentSequencedMap.Map.All: promises exactly-once delivery only until the counter wraps or reaches
  2^64-1. After the 2^64-1st `Put` the pair stamped with the sentinel is skipped. After a wrap, tickets
  repeat. A ghost flag `wrapped` records the first wrap.
- ConcurrentSequencedMap.Map.Put: promises the newer-ticket, distinct-ticket and in-order properties only
  until the counter first wraps. After that, tickets restart at 0 below the older ones.
- ConcurrentSequencedMap.MergedAscending: assumes each shard is in ticket order. Overwrites break that
  (`ConcurrentSequencedMap.OverwriteBreaksOrder`), so the merge is not globally ordered after an
  overwrite.
- Heap.Heap.Drain: the popped elements are a ghost out-parameter; the yielded values are real.
- The `package` clauses disagree within directories: `sequencedmap/ordered_access.go` says
  `package orderedmap`, and `orderedmap/ordered.go` says `package ordered`. Each directory is modelled as
  the one map type its files define methods on.

## Findings

| source | as written | input that shows it | evidently intended | confidence | as-written member | corrected member |
|---|---|---|---|---|---|---|
| sequencedmap/ordered_access.go:26 | the forward scan decrements `i`, so a tombstone in slot 0 sends it to slot -1 | put a, put b, delete a, PopFirst | scan forward with `i++` and pop the oldest live pair | high, not executed | SequencedMap.Map.PopFirst | SequencedMap.Map.PopOldest |
| orderedmap/ordered.go:150-154 | `Stream2` ranges over every slot, tombstones included | put a, put b, delete a, Stream2 yields the zero pair and then b | yield only the live pairs | high, not executed | OrderedMap.Map.Stream2 | OrderedMap.Map.Stream2Live |
| sequencedmap/ordered.go:172-176 | `Stream2` ranges over every slot, tombstones included | put a, put b, delete a, Stream2 yields the zero pair and then b | yield only the live pairs | high, not executed | SequencedMap.Map.Stream2 | SequencedMap.Map.Stream2Live |
| stream/stream.go:30-35 | `Take(n)` pulls an (n+1)th item before stopping, so a failure just after the n items still fires | Take(1) over a stream that yields x and then fails | stop after the nth item, without pulling the next | medium, not executed | Streams.TakeTripsAfterEnough | Streams.TakenExactly |
| stream/stream.go:15 | `Filter` builds a stream without the upstream's error pointer | Filter over a stream whose run fails, followed by Collect | keep `err: s.err` as `Map` does | high, not executed | Streams.DroppedPointerHidesFailure | Streams.FilterReporting |
| stream/stream.go:28 | `Take` builds a stream without the upstream's error pointer | Take over a stream whose run fails, followed by Collect | keep `err: s.err` as `Map` does | high, not executed | Streams.DroppedPointerHidesFailure | Streams.TakeReporting |
| stream/stream2.go:203-207 | `Reduce` reads the error cell before every pair but not after the loop, so a failure after the last pair is not returned | a stream that yields one pair and then fails | check the cell again after the loop | high, not executed | Streams2.ReduceMissesLateFailure | Streams2.ReduceChecked |
| stream/stream_map.go:23 | `MapErr` writes through `s.err`, which `FromSeq` leaves nil | MapErr over FromSeq([x]) with an fn that fails | give every stream a cell, as `New2` does | high, not executed | Streams.MapErrOverFromSeqPanics | Streams.FromSeqWired |
