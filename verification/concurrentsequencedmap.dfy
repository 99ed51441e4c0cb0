/** concurrentsequencedmap: 256 insertion-ordered shards plus a global ticket counter. Every `Put`
    stamps its value with the next ticket, and iteration merges the shards by always taking the
    shard head with the smallest ticket.

    Locks and the atomic increment are not modelled: operations are sequential steps. The pull
    iterators of the merge become the shard streams still to be handed out. */
module ConcurrentSequencedMap {
  import opened Iteration
  import opened Slots
  import opened Shards
  import SequencedMap

  /** 2^64: the ticket counter is a uint64 and wraps around. */
  const TicketRange: nat := 0x1_0000_0000_0000_0000
  /** `^uint64(0)`, the merge's "no candidate yet" ticket. */
  const MaxTicket: nat := 0xFFFF_FFFF_FFFF_FFFF

  /** A stored value with the ticket of the `Put` that stored it. */
  datatype GlobalEntry<V> = GlobalEntry(value: V, ticket: nat)

  /** A shard head: a key and its stamped entry. */
  type Head<K, V> = (K, GlobalEntry<V>)

  function Ticket<K, V>(h: Head<K, V>): nat { h.1.ticket }

  /** What the merge hands to the consumer for a head: the key and the bare value. */
  function Unstamp<K, V>(h: Head<K, V>): (K, V) { (h.0, h.1.value) }

  // ---------------------------------------------------------------------------------------
  // The merge

  /** The linear scan for the next shard: from shard `i` on, keep the first head whose ticket is
      strictly below the best so far. -1 means no shard qualified. */
  function BestFrom<K, V>(rest: seq<seq<Head<K, V>>>, i: nat, best: int, minSeq: nat): (b: int)
    requires i <= |rest| && -1 <= best < |rest|
    ensures -1 <= b < |rest|
    decreases |rest| - i
  {
    if i == |rest| then best
    else if rest[i] != [] && Ticket(rest[i][0]) < minSeq then BestFrom(rest, i + 1, i, Ticket(rest[i][0]))
    else BestFrom(rest, i + 1, best, minSeq)
  }

  function Best<K, V>(rest: seq<seq<Head<K, V>>>): (b: int)
    ensures -1 <= b < |rest|
  {
    BestFrom(rest, 0, -1, MaxTicket)
  }

  /** Shard i is still active and its head is a candidate. */
  ghost predicate Candidate<K, V>(rest: seq<seq<Head<K, V>>>, i: int)
  {
    0 <= i < |rest| && rest[i] != [] && Ticket(rest[i][0]) < MaxTicket
  }

  /** The scan's loop invariant: `best`, if any, holds the smallest ticket among the candidates
      before `i`, and is the first shard to hold it. */
  ghost predicate ScanInv<K, V>(rest: seq<seq<Head<K, V>>>, i: nat, best: int, minSeq: nat)
  {
    && i <= |rest| && -1 <= best < i
    && (best == -1 ==> minSeq == MaxTicket)
    && (best != -1 ==> Candidate(rest, best) && minSeq == Ticket(rest[best][0]))
    && (forall j :: 0 <= j < i && rest[j] != [] ==> minSeq <= Ticket(rest[j][0]))
    && (forall j :: 0 <= j < best && rest[j] != [] ==> minSeq < Ticket(rest[j][0]))
  }

  lemma {:induction false} BestFromSpec<K, V>(rest: seq<seq<Head<K, V>>>, i: nat, best: int, minSeq: nat)
    requires ScanInv(rest, i, best, minSeq)
    ensures var b := BestFrom(rest, i, best, minSeq);
      && (b == -1 ==> ScanInv(rest, |rest|, b, MaxTicket))
      && (b != -1 ==> rest[b] != [] && ScanInv(rest, |rest|, b, Ticket(rest[b][0])))
    decreases |rest| - i
  {
    if i < |rest| {
      if rest[i] != [] && Ticket(rest[i][0]) < minSeq {
        BestFromSpec(rest, i + 1, i, Ticket(rest[i][0]));
      } else {
        BestFromSpec(rest, i + 1, best, minSeq);
      }
    }
  }

  /** The scan picks the candidate with the smallest ticket, the lowest shard among equals, and
      finds none exactly when no shard has a candidate head. */
  lemma BestSpec<K, V>(rest: seq<seq<Head<K, V>>>)
    ensures Best(rest) == -1 <==> forall i :: 0 <= i < |rest| ==> !Candidate(rest, i)
    ensures Best(rest) != -1 ==> Candidate(rest, Best(rest))
    ensures Best(rest) != -1 ==> forall i :: 0 <= i < |rest| && rest[i] != [] ==>
      Ticket(rest[Best(rest)][0]) <= Ticket(rest[i][0]) && (i < Best(rest) ==> Ticket(rest[Best(rest)][0]) < Ticket(rest[i][0]))
  {
    BestFromSpec(rest, 0, -1, MaxTicket);
  }

  /** The whole merged output from the given shard streams, when the consumer takes everything:
      the best head, then the merge of what remains. */
  function Merged<K, V>(rest: seq<seq<Head<K, V>>>): (r: seq<Head<K, V>>)
    decreases |Flatten(rest)|
  {
    var b := Best(rest);
    if b == -1 then []
    else
      BestSpec(rest);
      FlattenAdvance(rest, b);
      [rest[b][0]] + Merged(rest[b := rest[b][1..]])
  }

  /** Every ticket is a possible output: below the sentinel. */
  ghost predicate Stampable<K, V>(items: seq<Head<K, V>>)
  {
    forall i :: 0 <= i < |items| ==> Ticket(items[i]) < MaxTicket
  }

  lemma StampableHead<K, V>(rest: seq<seq<Head<K, V>>>, i: nat)
    requires Stampable(Flatten(rest)) && i < |rest| && rest[i] != []
    ensures Candidate(rest, i)
  {
    var x := rest[i][0];
    assert x in rest[i];
    FlattenMember(rest, x);
    var k :| 0 <= k < |Flatten(rest)| && Flatten(rest)[k] == x;
  }

  lemma StampableHeads<K, V>(rest: seq<seq<Head<K, V>>>)
    requires Stampable(Flatten(rest))
    ensures forall i :: 0 <= i < |rest| && rest[i] != [] ==> Candidate(rest, i)
  {
    forall i | 0 <= i < |rest| && rest[i] != [] ensures Candidate(rest, i) {
      StampableHead(rest, i);
    }
  }

  lemma StampableSub<K, V>(xs: seq<Head<K, V>>, ys: seq<Head<K, V>>)
    requires Stampable(xs) && multiset(ys) <= multiset(xs)
    ensures Stampable(ys)
  {
    forall k | 0 <= k < |ys| ensures Ticket(ys[k]) < MaxTicket {
      assert ys[k] in multiset(ys);
      var j :| 0 <= j < |xs| && xs[j] == ys[k];
    }
  }

  /** The merge hands out only items of the shards, each at most once; and when no ticket has
      reached the sentinel, every item of every shard exactly once. */
  lemma {:induction false} MergedExactlyOnce<K, V>(rest: seq<seq<Head<K, V>>>)
    ensures multiset(Merged(rest)) <= multiset(Flatten(rest))
    ensures Stampable(Flatten(rest)) ==> multiset(Merged(rest)) == multiset(Flatten(rest))
    ensures Stampable(Flatten(rest)) ==> |Merged(rest)| == |Flatten(rest)|
    decreases |Flatten(rest)|
  {
    var b := Best(rest);
    BestSpec(rest);
    if b == -1 {
      if Stampable(Flatten(rest)) {
        StampableHeads(rest);
        FlattenEmpty(rest);
      }
    } else {
      var rest' := rest[b := rest[b][1..]];
      MergedStep(rest, b);
      FlattenAdvance(rest, b);
      MergedExactlyOnce(rest');
      if Stampable(Flatten(rest)) {
        StampableSub(Flatten(rest), Flatten(rest'));
      }
    }
    if Stampable(Flatten(rest)) {
      assert |multiset(Merged(rest))| == |multiset(Flatten(rest))|;
    }
  }

  /** Each shard's stream is in ticket order. */
  ghost predicate Ascending<K, V>(items: seq<Head<K, V>>)
  {
    forall i, j :: 0 <= i < j < |items| ==> Ticket(items[i]) <= Ticket(items[j])
  }

  /** Every item of the shards is at least `m`. */
  ghost predicate AllAtLeast<K, V>(rest: seq<seq<Head<K, V>>>, m: nat)
  {
    forall i, j :: 0 <= i < |rest| && 0 <= j < |rest[i]| ==> m <= Ticket(rest[i][j])
  }

  lemma {:induction false} MergedAtLeast<K, V>(rest: seq<seq<Head<K, V>>>, m: nat)
    requires AllAtLeast(rest, m)
    ensures forall k :: 0 <= k < |Merged(rest)| ==> m <= Ticket(Merged(rest)[k])
  {
    MergedExactlyOnce(rest);
    forall k | 0 <= k < |Merged(rest)| ensures m <= Ticket(Merged(rest)[k]) {
      var x := Merged(rest)[k];
      assert x in multiset(Merged(rest));
      assert x in Flatten(rest);
      FlattenMember(rest, x);
      var i :| 0 <= i < |rest| && x in rest[i];
      var j :| 0 <= j < |rest[i]| && rest[i][j] == x;
    }
  }

  /** A merge step hands out the best head and goes on with its shard advanced. */
  lemma MergedStep<K, V>(rest: seq<seq<Head<K, V>>>, b: int)
    requires b == Best(rest) && b != -1
    ensures rest[b] != []
    ensures Merged(rest) == [rest[b][0]] + Merged(rest[b := rest[b][1..]])
    ensures |Flatten(rest[b := rest[b][1..]])| < |Flatten(rest)|
  {
    BestSpec(rest);
    FlattenAdvance(rest, b);
  }

  /** The best head of in-order shards is at most every item left once it is handed out. */
  lemma BestBelowRest<K, V>(rest: seq<seq<Head<K, V>>>, b: int)
    requires b == Best(rest) && b != -1
    requires forall i :: 0 <= i < |rest| ==> Ascending(rest[i])
    ensures rest[b] != [] && AllAtLeast(rest[b := rest[b][1..]], Ticket(rest[b][0]))
  {
    BestSpec(rest);
    var x := rest[b][0];
    var rest' := rest[b := rest[b][1..]];
    forall i, j | 0 <= i < |rest'| && 0 <= j < |rest'[i]| ensures Ticket(x) <= Ticket(rest'[i][j]) {
      if i == b {
        assert rest'[i][j] == rest[b][j + 1];
      } else {
        assert Ticket(x) <= Ticket(rest[i][0]);
      }
    }
  }

  /** An item at most every item of an ordered sequence can go in front of it. */
  lemma AscendingCons<K, V>(x: Head<K, V>, m: seq<Head<K, V>>)
    requires Ascending(m) && forall k :: 0 <= k < |m| ==> Ticket(x) <= Ticket(m[k])
    ensures Ascending([x] + m)
  {
    forall i, j | 0 <= i < j < |[x] + m| ensures Ticket(([x] + m)[i]) <= Ticket(([x] + m)[j]) {
      assert ([x] + m)[j] == m[j - 1];
      if i > 0 {
        assert ([x] + m)[i] == m[i - 1];
      }
    }
  }

  /** When every shard's stream is in ticket order, so is the merged output. */
  lemma {:induction false} MergedAscending<K, V>(rest: seq<seq<Head<K, V>>>)
    requires forall i :: 0 <= i < |rest| ==> Ascending(rest[i])
    ensures Ascending(Merged(rest))
    decreases |Flatten(rest)|
  {
    var b := Best(rest);
    if b != -1 {
      MergedStep(rest, b);
      BestBelowRest(rest, b);
      var x := rest[b][0];
      var rest' := rest[b := rest[b][1..]];
      assert forall i :: 0 <= i < |rest'| ==> Ascending(rest'[i]);
      MergedAscending(rest');
      MergedAtLeast(rest', Ticket(x));
      AscendingCons(x, Merged(rest'));
    }
  }

  /** After an overwrite a shard's stream need not be in ticket order, and then neither is the
      merge: keys a (ticket 3, rewritten) and b (ticket 2) in one shard come out as 3, 2. */
  lemma OverwriteBreaksOrder<K, V>(a: K, b: K, v: V, w: V)
    ensures var shard := [(a, GlobalEntry(v, 3)), (b, GlobalEntry(w, 2))];
      Merged([shard]) == shard && !Ascending(Merged([shard]))
  {
    var shard := [(a, GlobalEntry(v, 3)), (b, GlobalEntry(w, 2))];
    var rest0 := [shard];
    var rest1 := [shard[1..]];
    var done: seq<seq<Head<K, V>>> := [[]];
    assert BestFrom(rest0, 1, 0, 3) == 0;
    assert Best(rest0) == 0;
    assert rest0[0 := rest0[0][1..]] == rest1;
    assert BestFrom(rest1, 1, 0, 2) == 0;
    assert Best(rest1) == 0;
    var none: seq<Head<K, V>> := [];
    assert rest1[0][1..] == none;
    assert rest1[0 := none] == done;
    assert Best(done) == -1;
    assert Merged(done) == [];
    assert Merged(rest1) == [shard[1]];
    assert Merged(rest0) == [shard[0]] + [shard[1]];
  }

  /** What the merge of `rest` delivers when the consumer takes everything, as `f` of each
      head's key and value. */
  ghost function Delivered<K, V, T>(f: ((K, V)) -> T, rest: seq<seq<Head<K, V>>>): seq<T>
  {
    Mapped(f, Mapped(Unstamp, Merged(rest)))
  }

  /** A merge step delivers the best head and goes on with its shard advanced. */
  lemma DeliveredStep<K, V, T>(f: ((K, V)) -> T, rest: seq<seq<Head<K, V>>>, b: int)
    requires b == Best(rest) && b != -1
    ensures rest[b] != []
    ensures Delivered(f, rest) == [f(Unstamp(rest[b][0]))] + Delivered(f, rest[b := rest[b][1..]])
    ensures |Flatten(rest[b := rest[b][1..]])| < |Flatten(rest)|
  {
    MergedStep(rest, b);
    var rest' := rest[b := rest[b][1..]];
    MappedConcat(Unstamp, [rest[b][0]], Merged(rest'));
    MappedConcat(f, Mapped(Unstamp, [rest[b][0]]), Mapped(Unstamp, Merged(rest')));
  }

  /** With no candidate head left the merge delivers nothing. */
  lemma DeliveredEnd<K, V, T>(f: ((K, V)) -> T, rest: seq<seq<Head<K, V>>>)
    requires Best(rest) == -1
    ensures Delivered(f, rest) == []
  {
  }

  /** The scan over the shard heads for the smallest ticket. */
  method BestShard<K, V>(rest: seq<seq<Head<K, V>>>) returns (bestShard: int)
    ensures bestShard == Best(rest)
  {
    bestShard := -1;
    var minSeq: nat := MaxTicket;
    var i := 0;
    while i < |rest|
      invariant i <= |rest| && -1 <= bestShard < |rest|
      invariant BestFrom(rest, i, bestShard, minSeq) == Best(rest)
    {
      if rest[i] != [] && Ticket(rest[i][0]) < minSeq {
        minSeq := Ticket(rest[i][0]);
        bestShard := i;
      }
      i := i + 1;
    }
  }

  /** One round of the merge loop: the best head goes out and its shard advances, which keeps
      the loop's invariant, or the consumer refuses it and the result is complete. */
  lemma MergeAdvance<K, V, T>(f: ((K, V)) -> T, accept: seq<T> -> bool, items: seq<T>, out: seq<T>,
                              rest: seq<seq<Head<K, V>>>, b: int)
    requires b == Best(rest) && b != -1
    requires items == out + Delivered(f, rest)
    requires StopAt(items, accept, 0) == StopAt(items, accept, |out|)
    ensures 0 <= b < |rest| && rest[b] != []
    ensures var out' := out + [f(Unstamp(rest[b][0]))];
      && (!accept(out') ==> Consume(items, accept) == out')
      && (accept(out') ==> StopAt(items, accept, 0) == StopAt(items, accept, |out'|))
      && items == out' + Delivered(f, rest[b := rest[b][1..]])
      && |Flatten(rest[b := rest[b][1..]])| < |Flatten(rest)|
  {
    DeliveredStep(f, rest, b);
    var y := f(Unstamp(rest[b][0]));
    ConsumeStep(items, accept, out, y, Delivered(f, rest[b := rest[b][1..]]));
  }

  /** The merge loop: hand the best head (as `f` of its key and value) to the consumer, stop when
      it refuses, otherwise advance that shard alone. */
  method MergeShards<K, V, T>(streams: seq<seq<Head<K, V>>>, f: ((K, V)) -> T, accept: seq<T> -> bool)
    returns (out: seq<T>)
    ensures out == Consume(Delivered(f, streams), accept)
  {
    ghost var items := Delivered(f, streams);
    var rest := streams;
    out := [];
    while true
      invariant items == out + Delivered(f, rest)
      invariant StopAt(items, accept, 0) == StopAt(items, accept, |out|)
      decreases |Flatten(rest)|
    {
      var bestShard := BestShard(rest);
      if bestShard == -1 {
        DeliveredEnd(f, rest);
        ConsumeEnd(items, accept);
        return;
      }
      MergeAdvance(f, accept, items, out, rest, bestShard);
      var y := f(Unstamp(rest[bestShard][0]));
      out := out + [y];
      if !accept(out) {
        return;
      }
      rest := rest[bestShard := rest[bestShard][1..]];
    }
  }

  /** Flattening one more shard adds that shard's length. */
  lemma FlattenPrefixStep<T>(all: seq<seq<T>>, i: nat)
    requires i < |all|
    ensures |Flatten(all[..i + 1])| == |Flatten(all[..i])| + |all[i]|
  {
    FlattenConcat(all[..i], [all[i]]);
    assert all[..i + 1] == all[..i] + [all[i]];
    assert Flatten([all[i]]) == all[i] + Flatten([]);
  }

  // ---------------------------------------------------------------------------------------
  // The map

  /** The live entries of each shard, shard by shard. */
  ghost function EntriesOf<K, V>(ss: seq<SequencedMap.Map<K, GlobalEntry<V>>>): (r: seq<seq<Head<K, V>>>)
    reads ss
    ensures |r| == |ss| && forall i :: 0 <= i < |ss| ==> r[i] == ss[i].Entries()
  {
    if ss == [] then [] else [ss[0].Entries()] + EntriesOf(ss[1..])
  }

  /** A well-formed shard with nothing in it. */
  ghost predicate Blank<K, V>(m: SequencedMap.Map<K, GlobalEntry<V>>)
    reads m
  {
    m.Valid() && m.Entries() == [] && m.table == map[]
  }

  /** No shard appears twice. */
  ghost predicate Distinct<K, V>(ss: seq<SequencedMap.Map<K, GlobalEntry<V>>>)
  {
    forall j, l :: 0 <= j < l < |ss| ==> ss[j] != ss[l]
  }

  /** Appends one new empty shard. */
  method AddShard<K(==), V>(made: seq<SequencedMap.Map<K, GlobalEntry<V>>>, zeroK: K, zeroV: V)
    returns (made': seq<SequencedMap.Map<K, GlobalEntry<V>>>)
    requires Distinct(made)
    ensures |made'| == |made| + 1 && made'[..|made|] == made
    ensures fresh(made'[|made|]) && Blank(made'[|made|]) && Distinct(made')
  {
    var shard := new SequencedMap.Map(zeroK, GlobalEntry(zeroV, 0));
    made' := made + [shard];
    assert made'[..|made|] == made;
  }

  /** One empty shard per slot of the router. */
  method NewShards<K(==), V>(zeroK: K, zeroV: V) returns (made: seq<SequencedMap.Map<K, GlobalEntry<V>>>)
    ensures |made| == ShardCount
    ensures forall j :: 0 <= j < |made| ==> fresh(made[j]) && Blank(made[j])
    ensures Distinct(made)
  {
    made := [];
    while |made| < ShardCount
      invariant |made| <= ShardCount && Distinct(made)
      invariant forall j :: 0 <= j < |made| ==> fresh(made[j]) && Blank(made[j])
    {
      ghost var before := made;
      made := AddShard(made, zeroK, zeroV);
      assert forall j :: 0 <= j < |before| ==> made[j] == before[j];
    }
  }

  // ---------------------------------------------------------------------------------------
  // Tickets

  /** The ticket after n, as 64-bit unsigned addition computes it. */
  lemma NextTicket(n: nat)
    requires n < TicketRange
    ensures (n + 1) % TicketRange == if n + 1 == TicketRange then 0 else n + 1
  {
  }

  /** Every stored ticket lies in 1..n: the counter starts at 0 and each `Put` takes the next. */
  ghost predicate TicketsUpTo<K, V>(streams: seq<seq<Head<K, V>>>, n: nat)
  {
    forall i, x :: 0 <= i < |streams| && x in streams[i] ==> 1 <= Ticket(x) <= n
  }

  /** Two stored entries with the same ticket are one entry: the same shard and the same key. */
  ghost predicate TicketsDistinct<K, V>(streams: seq<seq<Head<K, V>>>)
  {
    forall i, j, x, y ::
      0 <= i < |streams| && 0 <= j < |streams| && x in streams[i] && y in streams[j] && Ticket(x) == Ticket(y)
      ==> i == j && x.0 == y.0
  }

  /** What a `Put` does to the shard streams: the owner shard upserts the key, the others stay. */
  ghost predicate PutInto<K, V>(before: seq<seq<Head<K, V>>>, after: seq<seq<Head<K, V>>>, o: nat,
                                key: K, e: GlobalEntry<V>)
  {
    && |after| == |before| && o < |before|
    && after[o] == Upsert(before[o], key, e)
    && forall i :: 0 <= i < |before| && i != o ==> after[i] == before[i]
  }

  /** What a `Delete` does to the shard streams: the owner shard drops the key, the others stay. */
  ghost predicate DeleteFrom<K, V>(before: seq<seq<Head<K, V>>>, after: seq<seq<Head<K, V>>>, o: nat, key: K)
  {
    && |after| == |before| && o < |before|
    && after[o] == Without(before[o], key)
    && forall i :: 0 <= i < |before| && i != o ==> after[i] == before[i]
  }

  /** Every stored entry other than the key's own in shard o has a ticket below n. */
  ghost predicate OlderThan<K, V>(streams: seq<seq<Head<K, V>>>, o: nat, key: K, n: nat)
  {
    forall i, x :: 0 <= i < |streams| && x in streams[i] && !(i == o && x.0 == key) ==> Ticket(x) < n
  }

  /** After a put, each stored entry is the put's own or was stored before under another key. */
  lemma PutMembers<K, V>(before: seq<seq<Head<K, V>>>, after: seq<seq<Head<K, V>>>, o: nat, key: K,
                         e: GlobalEntry<V>)
    requires PutInto(before, after, o, key, e)
    ensures forall i, x :: 0 <= i < |after| && x in after[i] ==>
      (i == o && x == (key, e)) || (x in before[i] && !(i == o && x.0 == key))
  {
    UpsertMember(before[o], key, e);
  }

  /** Stamping a put with the next ticket keeps the tickets in range and distinct, and leaves
      every other stored entry with an older ticket. */
  lemma StampPut<K, V>(before: seq<seq<Head<K, V>>>, after: seq<seq<Head<K, V>>>, o: nat, key: K,
                       e: GlobalEntry<V>, n: nat)
    requires TicketsUpTo(before, n) && TicketsDistinct(before)
    requires PutInto(before, after, o, key, e) && e.ticket == n + 1
    ensures TicketsUpTo(after, n + 1) && TicketsDistinct(after) && OlderThan(after, o, key, n + 1)
  {
    PutMembers(before, after, o, key, e);
    PutKeepsDistinct(before, after, o, key, e, n);
  }

  lemma PutKeepsDistinct<K, V>(before: seq<seq<Head<K, V>>>, after: seq<seq<Head<K, V>>>, o: nat, key: K,
                               e: GlobalEntry<V>, n: nat)
    requires TicketsUpTo(before, n) && TicketsDistinct(before)
    requires |after| == |before| && e.ticket == n + 1
    requires forall i, x :: 0 <= i < |after| && x in after[i] ==>
      (i == o && x == (key, e)) || (x in before[i] && !(i == o && x.0 == key))
    ensures TicketsDistinct(after)
  {
    forall i, j, x, y | 0 <= i < |after| && 0 <= j < |after| && x in after[i] && y in after[j] && Ticket(x) == Ticket(y)
      ensures i == j && x.0 == y.0
    {
      if x != (key, e) && y != (key, e) {
        assert x in before[i] && y in before[j];
      }
    }
  }

  /** Dropping a key keeps the tickets in range and distinct. */
  lemma StampDelete<K, V>(before: seq<seq<Head<K, V>>>, after: seq<seq<Head<K, V>>>, o: nat, key: K, n: nat)
    requires TicketsUpTo(before, n) && TicketsDistinct(before) && DeleteFrom(before, after, o, key)
    ensures TicketsUpTo(after, n) && TicketsDistinct(after)
  {
    WithoutSubsequence(before[o], key);
    assert forall i, x :: 0 <= i < |after| && x in after[i] ==> x in before[i];
  }

  /** A new key stamped with a ticket above the shard's goes at the end and keeps it in order. */
  lemma AppendAscending<K, V>(items: seq<Head<K, V>>, key: K, e: GlobalEntry<V>)
    requires Ascending(items) && Lookup(items, key).None?
    requires forall x :: x in items ==> Ticket(x) < e.ticket
    ensures Upsert(items, key, e) == items + [(key, e)] && Ascending(items + [(key, e)])
  {
    var r := items + [(key, e)];
    forall i, j | 0 <= i < j < |r| ensures Ticket(r[i]) <= Ticket(r[j]) {
      assert r[i] == items[i];
      if j < |items| {
        assert r[j] == items[j];
      } else {
        assert items[i] in items;
      }
    }
  }

  /** Tickets at most n, with n below the sentinel, are all visible to the merge. */
  lemma StampableUpTo<K, V>(streams: seq<seq<Head<K, V>>>, n: nat)
    requires TicketsUpTo(streams, n) && n < MaxTicket
    ensures Stampable(Flatten(streams))
  {
    forall k | 0 <= k < |Flatten(streams)| ensures Ticket(Flatten(streams)[k]) < MaxTicket {
      var x := Flatten(streams)[k];
      FlattenMember(streams, x);
      var i :| 0 <= i < |streams| && x in streams[i];
    }
  }

  /** With keys unique in each shard, distinct tickets mean no two stored entries share one. */
  lemma TicketsUnique<K, V>(streams: seq<seq<Head<K, V>>>)
    requires TicketsDistinct(streams) && forall i :: 0 <= i < |streams| ==> UniqueKeys(streams[i])
    ensures forall i, a, j, b ::
      0 <= i < |streams| && 0 <= j < |streams| && 0 <= a < |streams[i]| && 0 <= b < |streams[j]| && (i != j || a != b)
      ==> Ticket(streams[i][a]) != Ticket(streams[j][b])
  {
    forall i, a, j, b | 0 <= i < |streams| && 0 <= j < |streams| && 0 <= a < |streams[i]| &&
      0 <= b < |streams[j]| && (i != j || a != b)
      ensures Ticket(streams[i][a]) != Ticket(streams[j][b])
    {
      var x, y := streams[i][a], streams[j][b];
      assert x in streams[i] && y in streams[j];
      if i == j {
        if a < b {
          assert x.0 != y.0;
        } else {
          assert y.0 != x.0;
        }
      }
    }
  }

  class Map<K(==, !new), V> {
    var shards: seq<SequencedMap.Map<K, GlobalEntry<V>>>
    /** The last ticket handed out (0 before the first `Put`). */
    var sequence: nat
    /** Whether the counter has wrapped around 2^64; the ticket promises hold until it does. */
    ghost var wrapped: bool
    /** The key hash the router uses (Go's runtime map hash). */
    const hash: K -> bv64

    /** Sharded shards, a counter that fits in a uint64, and tickets stamped in order. */
    ghost predicate Valid()
      reads this, shards
    {
      Sharded() && sequence < TicketRange && Stamped()
    }

    /** 256 distinct, well-formed shards, each holding only keys routed to it. */
    ghost predicate Sharded()
      reads this, shards
    {
      && |shards| == ShardCount
      && (forall i :: 0 <= i < |shards| ==> shards[i].Valid())
      && Distinct(shards)
      && (forall i, k :: 0 <= i < |shards| && k in shards[i].table ==> ShardOf(hash(k)) == i)
    }

    /** Until the counter wraps, the stored tickets are distinct and none is above the counter. */
    ghost predicate Stamped()
      reads this, shards
    {
      !wrapped ==> TicketsUpTo(Streams(), sequence) && TicketsDistinct(Streams())
    }

    /** The shard streams the merge works on. */
    ghost function Streams(): seq<seq<Head<K, V>>>
      reads this, shards
    {
      EntriesOf(shards)
    }

    function Owner(key: K): (i: nat)
      ensures i < ShardCount
    {
      ShardOf(hash(key))
    }

    constructor (hash: K -> bv64, zeroK: K, zeroV: V)
      ensures Valid() && this.hash == hash && sequence == 0 && !wrapped
      ensures forall i :: 0 <= i < |shards| ==> shards[i].Entries() == [] && fresh(shards[i])
    {
      this.hash := hash;
      sequence := 0;
      wrapped := false;
      var made := NewShards(zeroK, zeroV);
      shards := made;
      new;
      assert Sharded();
      assert forall i :: 0 <= i < |Streams()| ==> Streams()[i] == [];
    }

    /** Advances the counter by one, as 64-bit unsigned addition does, and returns the new value:
        until the counter wraps, it is above every stored ticket. */
    method TakeTicket() returns (ticket: nat)
      requires Valid()
      modifies this
      ensures Valid() && shards == old(shards) && Streams() == old(Streams())
      ensures ticket == sequence == (old(sequence) + 1) % TicketRange
      ensures wrapped == (old(wrapped) || old(sequence) + 1 == TicketRange)
      ensures !wrapped ==> 1 <= sequence && TicketsUpTo(Streams(), sequence - 1)
    {
      NextTicket(sequence);
      if sequence + 1 == TicketRange {
        sequence, wrapped := 0, true;
      } else {
        sequence := sequence + 1;
      }
      ticket := sequence;
    }

    /** Takes the next ticket and stores the value with it in the key's shard. */
    method Put(key: K, value: V)
      requires Valid()
      modifies this, shards[Owner(key)]
      ensures Valid() && shards == old(shards)
      ensures sequence == (old(sequence) + 1) % TicketRange
      ensures wrapped == (old(wrapped) || old(sequence) + 1 == TicketRange)
      ensures shards[Owner(key)].Entries() == Upsert(old(shards[Owner(key)].Entries()), key, GlobalEntry(value, sequence))
      ensures !wrapped ==> OlderThan(Streams(), Owner(key), key, sequence)
      ensures !wrapped && Lookup(old(shards[Owner(key)].Entries()), key).None? && Ascending(old(shards[Owner(key)].Entries()))
        ==> Ascending(shards[Owner(key)].Entries())
    {
      var ticket := TakeTicket();
      var o := Owner(key);
      var e := GlobalEntry(value, ticket);
      ghost var before := Streams();
      PutShard(key, e);
      ghost var after := Streams();
      if !wrapped {
        StampPut(before, after, o, key, e, sequence - 1);
        if Lookup(before[o], key).None? && Ascending(before[o]) {
          assert forall x :: x in before[o] ==> Ticket(x) < e.ticket;
          AppendAscending(before[o], key, e);
        }
      }
      assert Stamped();
    }

    /** Stores an entry in the key's shard and leaves the other shards alone. */
    method PutShard(key: K, e: GlobalEntry<V>)
      requires Sharded()
      modifies shards[Owner(key)]
      ensures Sharded() && PutInto(old(Streams()), Streams(), Owner(key), key, e)
    {
      ghost var before := Streams();
      var o := Owner(key);
      var s := shards[o];
      s.Put(key, e);
      forall i | 0 <= i < |shards| && i != o
        ensures shards[i] != s && shards[i].Valid() && Streams()[i] == before[i]
      {
        assert shards[i] != shards[o];
      }
      forall i, k | 0 <= i < |shards| && k in shards[i].table ensures ShardOf(hash(k)) == i {
        if i != o {
          assert shards[i] != s;
        }
      }
      assert PutInto(before, Streams(), o, key, e);
    }

    /** Consulting only the owning shard finds the key wherever the map holds it. */
    function Get(key: K): (r: Option<V>)
      reads this, shards
      requires Valid()
      ensures r.Some? <==> exists i :: 0 <= i < |shards| && key in shards[i].table
      ensures forall i :: 0 <= i < |shards| && key in shards[i].table ==>
        Lookup(shards[i].Entries(), key).Some? && r == Some(Lookup(shards[i].Entries(), key).value.value)
    {
      var s := shards[Owner(key)];
      match s.Get(key)
      case Some(e) => Some(e.value)
      case None => None
    }

    method Delete(key: K)
      requires Valid()
      modifies shards[Owner(key)]
      ensures Valid()
      ensures shards[Owner(key)].Entries() == Without(old(shards[Owner(key)].Entries()), key)
      ensures Get(key) == None
    {
      ghost var before := Streams();
      DeleteShard(key);
      if !wrapped {
        StampDelete(before, Streams(), Owner(key), key, sequence);
      }
      assert Stamped();
    }

    /** Drops the key from its shard and leaves the other shards alone. */
    method DeleteShard(key: K)
      requires Sharded()
      modifies shards[Owner(key)]
      ensures Sharded() && DeleteFrom(old(Streams()), Streams(), Owner(key), key)
      ensures key !in shards[Owner(key)].table
    {
      ghost var streams := Streams();
      var o := Owner(key);
      var s := shards[o];
      ghost var before := s.Entries();
      ghost var t0, s0 := s.table, s.slots;
      var _ := s.Delete(key);
      forall k | k in s.table ensures k in t0 {
        IndexedLookup(s.table, s.slots, k);
        WithoutLookup(before, key, k);
        IndexedLookup(t0, s0, k);
      }
      IndexedLookup(s.table, s.slots, key);
      WithoutLookup(before, key, key);
      forall i | 0 <= i < |shards| && i != o ensures shards[i] != s && shards[i].Valid() {
        assert shards[i] != shards[o];
      }
      assert DeleteFrom(streams, Streams(), o, key);
    }

    /** The number of live entries over all shards. */
    method Len() returns (total: int)
      requires Valid()
      ensures total == |Flatten(Streams())|
    {
      ghost var all := Streams();
      total := 0;
      var i := 0;
      while i < ShardCount
        invariant i <= ShardCount
        invariant total == |Flatten(all[..i])|
      {
        var n := shards[i].Len();
        FlattenPrefixStep(all, i);
        total := total + n;
        i := i + 1;
      }
      assert all[..i] == all;
    }

    /** Each shard's entries as its iterator hands them out. */
    method Snapshot() returns (streams: seq<seq<Head<K, V>>>)
      requires Valid()
      ensures streams == Streams()
    {
      ghost var all := Streams();
      streams := [];
      var i := 0;
      while i < ShardCount
        invariant i <= ShardCount
        invariant streams == all[..i]
      {
        var entries := shards[i].All(Everything);
        ConsumeEverything(shards[i].Entries());
        assert entries == all[i];
        assert all[..i + 1] == all[..i] + [all[i]];
        streams := streams + [entries];
        i := i + 1;
      }
      assert all[..i] == all;
    }

    /** Until the counter wraps or reaches 2^64 - 1, no stored ticket is the merge's sentinel. */
    lemma StoredStampable()
      requires Valid() && !wrapped && sequence < MaxTicket
      ensures Stampable(Flatten(Streams()))
    {
      StampableUpTo(Streams(), sequence);
    }

    /** Until the counter wraps, no two stored entries share a ticket. */
    lemma TicketsPairwiseDistinct()
      requires Valid() && !wrapped
      ensures forall i, a, j, b ::
        0 <= i < |Streams()| && 0 <= j < |Streams()| && 0 <= a < |Streams()[i]| && 0 <= b < |Streams()[j]| &&
        (i != j || a != b)
        ==> Ticket(Streams()[i][a]) != Ticket(Streams()[j][b])
    {
      var all := Streams();
      forall i | 0 <= i < |all| ensures UniqueKeys(all[i]) {
        IndexedUnique(shards[i].table, shards[i].slots);
      }
      TicketsUnique(all);
    }

    /** Iterates the merge of the shards in ticket order; until the counter wraps or reaches
        2^64 - 1 the merge holds every stored entry exactly once. */
    method All(accept: seq<(K, V)> -> bool) returns (out: seq<(K, V)>)
      requires Valid()
      ensures out == Consume(Mapped(Unstamp, Merged(Streams())), accept)
      ensures !wrapped && sequence < MaxTicket ==>
        |Merged(Streams())| == |Flatten(Streams())| && multiset(Merged(Streams())) == multiset(Flatten(Streams()))
    {
      var streams := Snapshot();
      out := MergeShards(streams, p => p, accept);
      assert Mapped(p => p, Mapped(Unstamp, Merged(streams))) == Mapped(Unstamp, Merged(streams));
      if !wrapped && sequence < MaxTicket {
        StoredStampable();
        MergedExactlyOnce(streams);
      }
    }

    method Keys(accept: seq<K> -> bool) returns (out: seq<K>)
      requires Valid()
      ensures out == Consume(Mapped(Key, Mapped(Unstamp, Merged(Streams()))), accept)
    {
      var streams := Snapshot();
      out := MergeShards(streams, Key, accept);
    }

    method Values(accept: seq<V> -> bool) returns (out: seq<V>)
      requires Valid()
      ensures out == Consume(Mapped(Value, Mapped(Unstamp, Merged(Streams()))), accept)
    {
      var streams := Snapshot();
      out := MergeShards(streams, Value, accept);
    }
  }
}
