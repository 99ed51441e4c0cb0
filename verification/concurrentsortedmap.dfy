/** concurrentsortedmap: key-ordered iteration over 256 shards, each of them a sorted map.

    `All` opens a pull iterator on every shard and keeps each shard's next pair in a min-heap
    keyed by the pair's key. It repeatedly hands out the smallest and refills the heap from the
    shard that pair came from. The shards' sorted maps come from a B-tree library and are not
    part of this model: a shard is the sequence of (key, value) pairs its iterator yields, and
    keys are integers. `rest[s]` is what shard s's iterator has not yet handed out. */
module ConcurrentSortedMap {
  import opened Iteration
  import Heap

  /** What the heap holds for a shard: the value already pulled, and the shard to pull from next. */
  datatype Cursor<V> = Cursor(curr: V, shard: nat)

  /** A heap entry: a cursor, with the pulled pair's key as its priority. */
  type Held<V> = Heap.Item<Cursor<V>>

  function PairOf<V>(it: Held<V>): (int, V)
  {
    (it.priority, it.value.curr)
  }

  function KeyOf<V>(it: Held<V>): int
  {
    it.priority
  }

  function ValueOf<V>(it: Held<V>): V
  {
    it.value.curr
  }

  function First<V>(p: (int, V)): int
  {
    p.0
  }

  function Second<V>(p: (int, V)): V
  {
    p.1
  }

  /** Every pair the shards hold, each tagged with its shard, in the form the heap holds it. */
  function Tag<V>(rest: seq<seq<(int, V)>>): (r: seq<seq<Held<V>>>)
    ensures |r| == |rest|
    ensures forall s :: 0 <= s < |rest| ==> |r[s]| == |rest[s]|
  {
    seq(|rest|, s requires 0 <= s < |rest| =>
      seq(|rest[s]|, i requires 0 <= i < |rest[s]| => Heap.Item(Cursor(rest[s][i].1, s), rest[s][i].0)))
  }

  /** Everything still to be handed out, with multiplicity. */
  ghost function Pending<V>(rest: seq<seq<(int, V)>>): multiset<Held<V>>
  {
    multiset(Flatten(Tag(rest)))
  }

  /** A shard of a sorted map yields its keys in strictly ascending order. */
  ghost predicate Ascending<V>(s: seq<(int, V)>)
  {
    forall i, j :: 0 <= i < j < |s| ==> s[i].0 < s[j].0
  }

  ghost predicate Sorted<V>(streams: seq<seq<(int, V)>>)
  {
    forall s :: 0 <= s < |streams| ==> Ascending(streams[s])
  }

  /** Hash routing puts every key in exactly one shard, so no key appears in two shards. */
  ghost predicate Disjoint<V>(streams: seq<seq<(int, V)>>)
  {
    forall s, t, i, j :: 0 <= s < t < |streams| && 0 <= i < |streams[s]| && 0 <= j < |streams[t]| ==>
      streams[s][i].0 != streams[t][j].0
  }

  /** Each iterator has handed out a prefix of its shard. */
  ghost predicate Suffixes<V>(streams: seq<seq<(int, V)>>, rest: seq<seq<(int, V)>>)
  {
    && |rest| == |streams|
    && forall s :: 0 <= s < |rest| ==>
         |rest[s]| <= |streams[s]| && rest[s] == streams[s][|streams[s]| - |rest[s]|..]
  }

  ghost predicate NonDecreasing<V>(popped: seq<Held<V>>)
  {
    forall a, b :: 0 <= a < b < |popped| ==> popped[a].priority <= popped[b].priority
  }

  /** The order the merge keeps: what it handed out goes in ascending order and comes no later
      than anything held or still to pull, and a held cursor comes no later than the rest of its
      own shard. */
  ghost predicate InOrder<V>(rest: seq<seq<(int, V)>>, held: multiset<Held<V>>, popped: seq<Held<V>>)
  {
    && NonDecreasing(popped)
    && (forall it, j :: it in held && it.value.shard < |rest| && 0 <= j < |rest[it.value.shard]| ==>
          it.priority <= rest[it.value.shard][j].0)
    && (forall a, it :: 0 <= a < |popped| && it in held ==> popped[a].priority <= it.priority)
    && (forall a, s, j :: 0 <= a < |popped| && 0 <= s < |rest| && 0 <= j < |rest[s]| ==>
          popped[a].priority <= rest[s][j].0)
  }

  /** Every pair is either handed out, held in the heap, or still in its shard's iterator. */
  ghost predicate Balanced<V>(streams: seq<seq<(int, V)>>, rest: seq<seq<(int, V)>>,
                              held: multiset<Held<V>>, popped: seq<Held<V>>)
  {
    && Suffixes(streams, rest)
    && multiset(popped) + held + Pending(rest) == Pending(streams)
    && (Sorted(streams) ==> InOrder(rest, held, popped))
  }

  /** Every held cursor names a shard, and every shard with pairs left but `skip` has a cursor. */
  ghost predicate CoveredBut<V>(rest: seq<seq<(int, V)>>, held: multiset<Held<V>>, skip: int)
  {
    && (forall it :: it in held ==> it.value.shard < |rest|)
    && forall s :: 0 <= s < |rest| && s != skip && rest[s] != [] ==>
         exists it :: it in held && it.value.shard == s
  }

  /** The merge loop's invariant. */
  ghost predicate Merging<V>(streams: seq<seq<(int, V)>>, rest: seq<seq<(int, V)>>,
                             held: multiset<Held<V>>, popped: seq<Held<V>>)
  {
    Balanced(streams, rest, held, popped) && CoveredBut(rest, held, -1)
  }

  /** What has been handed out is the smallest part of everything the shards hold. */
  ghost predicate Smallest<V>(streams: seq<seq<(int, V)>>, popped: seq<Held<V>>)
  {
    forall x, a :: x in Pending(streams) - multiset(popped) && 0 <= a < |popped| ==>
      popped[a].priority <= x.priority
  }

  /** What a merge that handed out `popped` promises: only pairs the shards hold, each at most
      once; and, for sorted shards, in ascending order and smallest first. */
  ghost predicate Drawn<V>(streams: seq<seq<(int, V)>>, popped: seq<Held<V>>)
  {
    && multiset(popped) <= Pending(streams)
    && (Sorted(streams) ==> NonDecreasing(popped) && Smallest(streams, popped))
  }

  /** Pulling shard s's next pair moves exactly that pair, tagged with s, out of what is pending. */
  lemma TagAdvance<V>(rest: seq<seq<(int, V)>>, s: nat)
    requires s < |rest| && rest[s] != []
    ensures Pending(rest) == Pending(rest[s := rest[s][1..]]) + multiset{Heap.Item(Cursor(rest[s][0].1, s), rest[s][0].0)}
  {
    var t := Tag(rest);
    assert t[s] != [] && t[s][0] == Heap.Item(Cursor(rest[s][0].1, s), rest[s][0].0);
    var t' := Tag(rest[s := rest[s][1..]]);
    forall u | 0 <= u < |t| ensures t'[u] == t[s := t[s][1..]][u] {
      if u == s {
        assert |t'[u]| == |t[s][1..]|;
        forall i | 0 <= i < |t'[u]| ensures t'[u][i] == t[s][1..][i] { }
      }
    }
    assert t' == t[s := t[s][1..]];
    FlattenAdvance(t, s);
  }

  lemma SuffixAdvance<V>(streams: seq<seq<(int, V)>>, rest: seq<seq<(int, V)>>, s: nat)
    requires Suffixes(streams, rest) && s < |rest| && rest[s] != []
    ensures Suffixes(streams, rest[s := rest[s][1..]])
  {
    var st := streams[s];
    assert rest[s][1..] == st[|st| - |rest[s]| + 1..];
  }

  /** A sorted shard's remainder is sorted. */
  lemma RestAscending<V>(streams: seq<seq<(int, V)>>, rest: seq<seq<(int, V)>>, s: nat)
    requires Suffixes(streams, rest) && Sorted(streams) && s < |rest|
    ensures Ascending(rest[s])
  {
    var st := streams[s];
    var d := |st| - |rest[s]|;
    assert Ascending(st);
    forall i, j | 0 <= i < j < |rest[s]| ensures rest[s][i].0 < rest[s][j].0 {
      assert rest[s][i] == st[d + i] && rest[s][j] == st[d + j];
    }
  }

  /** The initialisation loop's invariant after the first i shards are opened. */
  ghost predicate Opened<V>(streams: seq<seq<(int, V)>>, rest: seq<seq<(int, V)>>,
                            held: multiset<Held<V>>, i: nat)
  {
    && i <= |streams|
    && Balanced(streams, rest, held, [])
    && Unopened(streams, rest, i)
    && HeldBelow(held, i)
    && Covers(rest, held, i)
  }

  /** Shards from i on are untouched. */
  ghost predicate Unopened<V>(streams: seq<seq<(int, V)>>, rest: seq<seq<(int, V)>>, i: nat)
  {
    forall s :: i <= s < |rest| && s < |streams| ==> rest[s] == streams[s]
  }

  /** Every held cursor names one of the first i shards. */
  ghost predicate HeldBelow<V>(held: multiset<Held<V>>, i: nat)
  {
    forall it :: it in held ==> it.value.shard < i
  }

  /** Every one of the first i shards with pairs left has a held cursor. */
  ghost predicate Covers<V>(rest: seq<seq<(int, V)>>, held: multiset<Held<V>>, i: nat)
  {
    forall s :: 0 <= s < i && s < |rest| && rest[s] != [] ==> exists it :: it in held && it.value.shard == s
  }

  lemma OpenNone<V>(streams: seq<seq<(int, V)>>)
    ensures Opened(streams, streams, multiset{}, 0)
  {
    assert Suffixes(streams, streams) by {
      forall s | 0 <= s < |streams| ensures streams[s] == streams[s][0..] { }
    }
  }

  /** Pulling shard s's next pair into the heap keeps the order, given that shard's remainder
      is sorted. */
  lemma PullInOrder<V>(rest: seq<seq<(int, V)>>, held: multiset<Held<V>>, popped: seq<Held<V>>, s: nat)
    requires s < |rest| && rest[s] != [] && Ascending(rest[s]) && InOrder(rest, held, popped)
    ensures InOrder(rest[s := rest[s][1..]], held + multiset{Heap.Item(Cursor(rest[s][0].1, s), rest[s][0].0)}, popped)
  {
    var n := Heap.Item(Cursor(rest[s][0].1, s), rest[s][0].0);
    var rest': seq<seq<(int, V)>> := rest[s := rest[s][1..]];
    var held' := held + multiset{n};
    forall it, j | it in held' && it.value.shard < |rest'| && 0 <= j < |rest'[it.value.shard]|
      ensures it.priority <= rest'[it.value.shard][j].0
    {
      if it.value.shard == s {
        assert rest'[s][j] == rest[s][j + 1];
      }
    }
    forall a, it | 0 <= a < |popped| && it in held' ensures popped[a].priority <= it.priority {
      if it == n {
        assert rest[s][0].0 == n.priority;
      }
    }
    forall a, t, j | 0 <= a < |popped| && 0 <= t < |rest'| && 0 <= j < |rest'[t]|
      ensures popped[a].priority <= rest'[t][j].0
    {
      if t == s {
        assert rest'[s][j] == rest[s][j + 1];
      }
    }
  }

  /** Pulling shard s's next pair into the heap keeps the balance. */
  lemma PullBalanced<V>(streams: seq<seq<(int, V)>>, rest: seq<seq<(int, V)>>, held: multiset<Held<V>>,
                        popped: seq<Held<V>>, s: nat)
    requires Balanced(streams, rest, held, popped) && s < |rest| && rest[s] != []
    ensures var n := Heap.Item(Cursor(rest[s][0].1, s), rest[s][0].0);
      && Balanced(streams, rest[s := rest[s][1..]], held + multiset{n}, popped)
      && Pending(rest) == Pending(rest[s := rest[s][1..]]) + multiset{n}
  {
    TagAdvance(rest, s);
    SuffixAdvance(streams, rest, s);
    if Sorted(streams) {
      RestAscending(streams, rest, s);
      PullInOrder(rest, held, popped, s);
    }
  }

  /** Opening an empty shard pulls nothing. */
  lemma OpenEmpty<V>(streams: seq<seq<(int, V)>>, rest: seq<seq<(int, V)>>, held: multiset<Held<V>>, i: nat)
    requires Opened(streams, rest, held, i) && i < |streams| && rest[i] == []
    ensures Opened(streams, rest, held, i + 1)
  {
    assert HeldBelow(held, i + 1);
    assert Unopened(streams, rest, i + 1);
    assert Covers(rest, held, i + 1) by {
      forall s | 0 <= s < i + 1 && s < |rest| && rest[s] != [] ensures exists it :: it in held && it.value.shard == s {
        assert s < i;
      }
    }
  }

  /** After opening shard i, the held cursors cover the first i + 1 shards. */
  lemma OpenCover<V>(rest: seq<seq<(int, V)>>, held: multiset<Held<V>>, i: nat)
    requires i < |rest| && rest[i] != [] && Covers(rest, held, i)
    ensures Covers(rest[i := rest[i][1..]], held + multiset{Heap.Item(Cursor(rest[i][0].1, i), rest[i][0].0)}, i + 1)
  {
    var n := Heap.Item(Cursor(rest[i][0].1, i), rest[i][0].0);
    var rest': seq<seq<(int, V)>> := rest[i := rest[i][1..]];
    var held' := held + multiset{n};
    forall s | 0 <= s < i + 1 && s < |rest'| && rest'[s] != [] ensures exists it :: it in held' && it.value.shard == s {
      if s == i {
        assert n in held';
      } else {
        var it :| it in held && it.value.shard == s;
        assert it in held';
      }
    }
  }

  /** Opening shard i moves the bound on held cursors past it. */
  lemma OpenBelow<V>(held: multiset<Held<V>>, i: nat, n: Held<V>)
    requires HeldBelow(held, i) && n.value.shard == i
    ensures HeldBelow(held + multiset{n}, i + 1)
  {
  }

  /** Opening a non-empty shard i pulls its first pair into the heap. */
  lemma OpenNext<V>(streams: seq<seq<(int, V)>>, rest: seq<seq<(int, V)>>, held: multiset<Held<V>>, i: nat)
    requires Opened(streams, rest, held, i) && i < |streams| && rest[i] != []
    ensures Opened(streams, rest[i := rest[i][1..]], held + multiset{Heap.Item(Cursor(rest[i][0].1, i), rest[i][0].0)}, i + 1)
  {
    var n := Heap.Item(Cursor(rest[i][0].1, i), rest[i][0].0);
    PullBalanced(streams, rest, held, [], i);
    OpenCover(rest, held, i);
    OpenBelow(held, i, n);
  }

  /** The smallest held cursor comes no earlier than anything handed out, and no later than
      anything still to pull. */
  lemma StepBelowRest<V>(rest: seq<seq<(int, V)>>, held: multiset<Held<V>>, popped: seq<Held<V>>, m: Held<V>)
    requires InOrder(rest, held + multiset{m}, popped) && CoveredBut(rest, held + multiset{m}, -1)
    requires forall it :: it in held ==> m.priority <= it.priority
    ensures forall a :: 0 <= a < |popped| ==> popped[a].priority <= m.priority
    ensures forall s, j :: 0 <= s < |rest| && 0 <= j < |rest[s]| ==> m.priority <= rest[s][j].0
  {
    var before := held + multiset{m};
    assert m in before;
    forall s, j | 0 <= s < |rest| && 0 <= j < |rest[s]| ensures m.priority <= rest[s][j].0 {
      var it :| it in before && it.value.shard == s;
      assert m.priority <= it.priority;
    }
  }

  /** Handing out the smallest held cursor keeps the merge order. */
  lemma StepInOrder<V>(rest: seq<seq<(int, V)>>, held: multiset<Held<V>>, popped: seq<Held<V>>, m: Held<V>)
    requires InOrder(rest, held + multiset{m}, popped) && CoveredBut(rest, held + multiset{m}, -1)
    requires forall it :: it in held ==> m.priority <= it.priority
    ensures InOrder(rest, held, popped + [m])
  {
    StepBelowRest(rest, held, popped, m);
    var before := held + multiset{m};
    var popped' := popped + [m];
    forall a, b | 0 <= a < b < |popped'| ensures popped'[a].priority <= popped'[b].priority {
      assert popped'[a] == popped[a];
    }
    forall a, it | 0 <= a < |popped'| && it in held ensures popped'[a].priority <= it.priority {
      if a < |popped| {
        assert popped'[a] == popped[a] && it in before;
      }
    }
    forall a, s, j | 0 <= a < |popped'| && 0 <= s < |rest| && 0 <= j < |rest[s]|
      ensures popped'[a].priority <= rest[s][j].0
    {
      if a < |popped| {
        assert popped'[a] == popped[a];
      }
    }
  }

  /** After the smallest held cursor is popped, only its shard may lack a cursor. */
  lemma StepCover<V>(rest: seq<seq<(int, V)>>, held: multiset<Held<V>>, m: Held<V>)
    requires CoveredBut(rest, held + multiset{m}, -1)
    ensures CoveredBut(rest, held, m.value.shard)
  {
    var before := held + multiset{m};
    forall s | 0 <= s < |rest| && s != m.value.shard && rest[s] != []
      ensures exists it :: it in held && it.value.shard == s
    {
      var it :| it in before && it.value.shard == s;
      assert it != m;
    }
  }

  /** Popping the smallest held cursor and handing out its pair keeps the balance; only the popped
      cursor's shard may now lack a cursor. */
  lemma Step<V>(streams: seq<seq<(int, V)>>, rest: seq<seq<(int, V)>>, held: multiset<Held<V>>,
                popped: seq<Held<V>>, m: Held<V>)
    requires Merging(streams, rest, held + multiset{m}, popped)
    requires forall it :: it in held ==> m.priority <= it.priority
    ensures Balanced(streams, rest, held, popped + [m])
    ensures CoveredBut(rest, held, m.value.shard)
  {
    assert multiset(popped + [m]) + held + Pending(rest) == Pending(streams);
    if Sorted(streams) {
      StepInOrder(rest, held, popped, m);
    }
    StepCover(rest, held, m);
  }

  /** Refilling from the popped cursor's shard, when it has pairs left, restores the invariant. */
  lemma Refill<V>(streams: seq<seq<(int, V)>>, rest: seq<seq<(int, V)>>, held: multiset<Held<V>>,
                  popped: seq<Held<V>>, s: nat)
    requires Balanced(streams, rest, held, popped) && CoveredBut(rest, held, s)
    requires s < |rest| && rest[s] != []
    ensures var n := Heap.Item(Cursor(rest[s][0].1, s), rest[s][0].0);
      && Merging(streams, rest[s := rest[s][1..]], held + multiset{n}, popped)
      && Pending(rest) == Pending(rest[s := rest[s][1..]]) + multiset{n}
  {
    var n := Heap.Item(Cursor(rest[s][0].1, s), rest[s][0].0);
    var rest': seq<seq<(int, V)>> := rest[s := rest[s][1..]];
    var held' := held + multiset{n};
    PullBalanced(streams, rest, held, popped, s);
    forall t | 0 <= t < |rest'| && t != -1 && rest'[t] != [] ensures exists it :: it in held' && it.value.shard == t {
      if t == s {
        assert n in held';
      } else {
        var it :| it in held && it.value.shard == t;
        assert it in held';
      }
    }
  }

  /** A shard whose iterator is exhausted needs no cursor. */
  lemma Exhausted<V>(rest: seq<seq<(int, V)>>, held: multiset<Held<V>>, s: nat)
    requires CoveredBut(rest, held, s) && s < |rest| && rest[s] == []
    ensures CoveredBut(rest, held, -1)
  {
  }

  /** A bound below every pair the iterators still hold is below everything pending. */
  lemma PendingAbove<V>(rest: seq<seq<(int, V)>>, k: int)
    requires forall s, j :: 0 <= s < |rest| && 0 <= j < |rest[s]| ==> k <= rest[s][j].0
    ensures forall x :: x in Pending(rest) ==> k <= x.priority
  {
    var t := Tag(rest);
    forall x | x in Pending(rest) ensures k <= x.priority {
      assert x in Flatten(t);
      FlattenMember(t, x);
      var s :| 0 <= s < |t| && x in t[s];
      var j :| 0 <= j < |t[s]| && t[s][j] == x;
      assert x.priority == rest[s][j].0;
    }
  }

  /** Whenever the merge stops, what it handed out meets the promise. */
  lemma Finish<V>(streams: seq<seq<(int, V)>>, rest: seq<seq<(int, V)>>, held: multiset<Held<V>>,
                  popped: seq<Held<V>>)
    requires Balanced(streams, rest, held, popped)
    ensures Drawn(streams, popped)
  {
    var left := Pending(streams) - multiset(popped);
    assert left == held + Pending(rest);
    if Sorted(streams) {
      forall a | 0 <= a < |popped| ensures forall x :: x in left ==> popped[a].priority <= x.priority {
        PendingAbove(rest, popped[a].priority);
      }
    }
  }

  /** With the heap empty, every iterator is exhausted and everything was handed out. */
  lemma Complete<V>(streams: seq<seq<(int, V)>>, rest: seq<seq<(int, V)>>, popped: seq<Held<V>>)
    requires Merging(streams, rest, multiset{}, popped)
    ensures multiset(popped) == Pending(streams)
  {
    var t := Tag(rest);
    forall s | 0 <= s < |t| ensures t[s] == [] {
      assert rest[s] == [];
    }
    FlattenEmpty(t);
  }

  /** The first i shards have had their first pair, if any, pulled. */
  ghost predicate FirstPulled<V>(streams: seq<seq<(int, V)>>, rest: seq<seq<(int, V)>>, i: nat)
  {
    forall s :: 0 <= s < i && s < |streams| && s < |rest| ==>
      rest[s] == if streams[s] == [] then [] else streams[s][1..]
  }

  /** Once every shard is opened, the merge loop's invariant holds with nothing handed out. */
  lemma OpenedMerging<V>(streams: seq<seq<(int, V)>>, rest: seq<seq<(int, V)>>, held: multiset<Held<V>>)
    requires Opened(streams, rest, held, |streams|)
    ensures Merging(streams, rest, held, [])
  {
    forall s | 0 <= s < |rest| && s != -1 && rest[s] != [] ensures exists it :: it in held && it.value.shard == s {
      assert s < |streams|;
    }
  }

  /** Opens shard i's iterator: pulls its first pair, if any, into the heap. */
  method OpenShard<V>(h: Heap.Heap<Cursor<V>>, streams: seq<seq<(int, V)>>, rest: seq<seq<(int, V)>>, i: nat)
    returns (rest': seq<seq<(int, V)>>)
    requires h.Valid() && h.min && i < |streams| && Opened(streams, rest, multiset(h.data), i)
    requires FirstPulled(streams, rest, i)
    modifies h
    ensures h.Valid() && h.min
    ensures Opened(streams, rest', multiset(h.data), i + 1)
    ensures FirstPulled(streams, rest', i + 1)
    ensures rest' == if rest[i] == [] then rest else rest[i := rest[i][1..]]
  {
    ghost var held := multiset(h.data);
    assert rest[i] == streams[i];
    if rest[i] == [] {
      OpenEmpty(streams, rest, held, i);
      return rest;
    }
    OpenNext(streams, rest, held, i);
    var first := rest[i][0];
    rest' := rest[i := rest[i][1..]];
    h.Insert(first.0, Cursor(first.1, i));
  }

  /** The initialisation phase: opens every shard's iterator and pulls its first pair, if any,
      into a fresh min-heap keyed by that pair's key. */
  method Open<V>(streams: seq<seq<(int, V)>>, zeroV: V)
    returns (h: Heap.Heap<Cursor<V>>, rest: seq<seq<(int, V)>>)
    ensures fresh(h) && h.Valid() && h.min
    ensures Merging(streams, rest, multiset(h.data), [])
    ensures FirstPulled(streams, rest, |streams|)
  {
    h := new Heap.Heap<Cursor<V>>.New(Cursor(zeroV, 0));
    rest := streams;
    OpenNone(streams);
    var i := 0;
    while i < |streams|
      invariant h.Valid() && h.min && fresh(h)
      invariant Opened(streams, rest, multiset(h.data), i)
      invariant FirstPulled(streams, rest, i)
    {
      rest := OpenShard(h, streams, rest, i);
      i := i + 1;
    }
    OpenedMerging(streams, rest, multiset(h.data));
  }

  /** Popping the min-heap hands out the least held pair, and the merge stays balanced with it. */
  method PopLeast<V>(h: Heap.Heap<Cursor<V>>, ghost streams: seq<seq<(int, V)>>,
                     ghost rest: seq<seq<(int, V)>>, ghost popped: seq<Held<V>>)
    returns (m: Held<V>)
    requires h.Valid() && h.min && |h.data| > 0
    requires Merging(streams, rest, multiset(h.data), popped)
    modifies h
    ensures h.Valid() && h.min && |h.data| == |old(h.data)| - 1
    ensures Balanced(streams, rest, multiset(h.data), popped + [m])
    ensures CoveredBut(rest, multiset(h.data), m.value.shard) && m.value.shard < |rest|
  {
    ghost var before := h.data;
    var r := h.Pop();
    m := r.value;
    forall it | it in multiset(h.data) ensures m.priority <= it.priority {
      assert it in multiset(before);
      var k :| 0 <= k < |before| && before[k] == it;
    }
    Step(streams, rest, multiset(h.data), popped, m);
  }

  /** The pairs of all shards in ascending key order, as far as the consumer takes them. The
      consumer has accepted every proper prefix of `out`; the merge either handed out every pair
      or stopped because the consumer refused the last one. */
  method All<V>(streams: seq<seq<(int, V)>>, zeroV: V, accept: seq<(int, V)> -> bool)
    returns (out: seq<(int, V)>, ghost popped: seq<Held<V>>)
    ensures out == Mapped(PairOf, popped)
    ensures Drawn(streams, popped)
    ensures forall j :: 0 < j < |out| ==> accept(out[..j])
    ensures multiset(popped) == Pending(streams) || (out != [] && !accept(out))
  {
    var h, rest := Open(streams, zeroV);
    out := [];
    popped := [];
    while h.Len() > 0
      invariant h.Valid() && h.min
      invariant Merging(streams, rest, multiset(h.data), popped)
      invariant out == Mapped(PairOf, popped)
      invariant forall j :: 0 < j <= |out| ==> accept(out[..j])
      decreases |h.data| + |Pending(rest)|
    {
      var m := PopLeast(h, streams, rest, popped);
      PrefixesAccepted(accept, out, PairOf(m));
      MappedConcat(PairOf, popped, [m]);
      out := out + [PairOf(m)];
      popped := popped + [m];
      if !accept(out) {
        Finish(streams, rest, multiset(h.data), popped);
        return;
      }
      var s := m.value.shard;
      if rest[s] != [] {
        var next := rest[s][0];
        Refill(streams, rest, multiset(h.data), popped, s);
        rest := rest[s := rest[s][1..]];
        h.Insert(next.0, m.value.(curr := next.1));
      } else {
        Exhausted(rest, multiset(h.data), s);
      }
    }
    Finish(streams, rest, multiset(h.data), popped);
    Complete(streams, rest, popped);
  }

  /** `Mapped` commutes with taking a prefix. */
  lemma MappedPrefix<A, B>(f: A -> B, xs: seq<A>, j: nat)
    requires j <= |xs|
    ensures Mapped(f, xs)[..j] == Mapped(f, xs[..j])
  {
  }

  /** The keys of `All`, in the same order; the consumer sees keys only. */
  method Keys<V>(streams: seq<seq<(int, V)>>, zeroV: V, accept: seq<int> -> bool)
    returns (out: seq<int>, ghost popped: seq<Held<V>>)
    ensures out == Mapped(KeyOf, popped)
    ensures Drawn(streams, popped)
    ensures forall j :: 0 < j < |out| ==> accept(out[..j])
    ensures multiset(popped) == Pending(streams) || (out != [] && !accept(out))
  {
    var pairs;
    pairs, popped := All(streams, zeroV, ps => accept(Mapped(First, ps)));
    out := Mapped(First, pairs);
    forall k | 0 <= k < |out| ensures out[k] == KeyOf(popped[k]) {
      assert out[k] == First(pairs[k]) && pairs[k] == PairOf(popped[k]);
    }
    forall j | 0 <= j <= |out| ensures out[..j] == Mapped(First, pairs[..j]) {
      MappedPrefix(First, pairs, j);
    }
    assert out[..|out|] == out && pairs[..|pairs|] == pairs;
  }

  /** The values of `All`, in the order of their keys; the consumer sees values only. */
  method Values<V>(streams: seq<seq<(int, V)>>, zeroV: V, accept: seq<V> -> bool)
    returns (out: seq<V>, ghost popped: seq<Held<V>>)
    ensures out == Mapped(ValueOf, popped)
    ensures Drawn(streams, popped)
    ensures forall j :: 0 < j < |out| ==> accept(out[..j])
    ensures multiset(popped) == Pending(streams) || (out != [] && !accept(out))
  {
    var pairs;
    pairs, popped := All(streams, zeroV, ps => accept(Mapped(Second, ps)));
    out := Mapped(Second, pairs);
    forall k | 0 <= k < |out| ensures out[k] == ValueOf(popped[k]) {
      assert out[k] == Second(pairs[k]) && pairs[k] == PairOf(popped[k]);
    }
    forall j | 0 <= j <= |out| ensures out[..j] == Mapped(Second, pairs[..j]) {
      MappedPrefix(Second, pairs, j);
    }
    assert out[..|out|] == out && pairs[..|pairs|] == pairs;
  }

  /** No two items of xs share a key. */
  ghost predicate UniqueKeys<V>(xs: seq<Held<V>>)
  {
    forall a, b :: 0 <= a < b < |xs| ==> xs[a].priority != xs[b].priority
  }

  /** Iterators whose keys are unique within and across them hold unique keys together. */
  lemma {:induction false} FlattenUnique<V>(rest: seq<seq<Held<V>>>)
    requires forall s :: 0 <= s < |rest| ==> UniqueKeys(rest[s])
    requires forall s, t, i, j :: 0 <= s < t < |rest| && 0 <= i < |rest[s]| && 0 <= j < |rest[t]| ==>
      rest[s][i].priority != rest[t][j].priority
    ensures UniqueKeys(Flatten(rest))
  {
    if rest != [] {
      var tail := rest[1..];
      FlattenUnique(tail);
      var f := Flatten(rest);
      assert f == rest[0] + Flatten(tail);
      forall a, b | 0 <= a < b < |f| ensures f[a].priority != f[b].priority {
        if a < |rest[0]| <= b {
          var y := f[b];
          assert y == Flatten(tail)[b - |rest[0]|];
          FlattenMember(tail, y);
          var t :| 0 <= t < |tail| && y in tail[t];
          var j :| 0 <= j < |rest[t + 1]| && rest[t + 1][j] == y;
        }
      }
    }
  }

  /** Dropping item i: the others keep their order and the multiset loses one copy of it. */
  lemma DropAt<V>(xs: seq<Held<V>>, i: nat)
    requires i < |xs|
    ensures var xs' := xs[..i] + xs[i + 1..];
      && |xs'| == |xs| - 1
      && (forall k :: 0 <= k < |xs'| ==> xs'[k] == xs[if k < i then k else k + 1])
      && multiset(xs') == multiset(xs) - multiset{xs[i]}
  {
    assert xs == xs[..i] + [xs[i]] + xs[i + 1..];
  }

  /** With item i dropped, the others still have unique keys, all different from item i's. */
  lemma DropUnique<V>(xs: seq<Held<V>>, i: nat)
    requires UniqueKeys(xs) && i < |xs|
    ensures var xs' := xs[..i] + xs[i + 1..];
      && UniqueKeys(xs')
      && multiset(xs') == multiset(xs) - multiset{xs[i]}
      && forall x :: x in multiset(xs') ==> x.priority != xs[i].priority
  {
    var xs' := xs[..i] + xs[i + 1..];
    DropAt(xs, i);
    forall a, b | 0 <= a < b < |xs'| ensures xs'[a].priority != xs'[b].priority {
      assert xs'[a] == xs[if a < i then a else a + 1] && xs'[b] == xs[if b < i then b else b + 1];
    }
    forall x | x in multiset(xs') ensures x.priority != xs[i].priority {
      var k :| 0 <= k < |xs'| && xs'[k] == x;
      assert xs[if k < i then k else k + 1] == x;
    }
  }

  /** Putting an item in front of items with unique keys, none sharing its key, keeps keys unique. */
  lemma ConsUnique<V>(y: Held<V>, tail: seq<Held<V>>)
    requires UniqueKeys(tail) && forall b :: 0 <= b < |tail| ==> y.priority != tail[b].priority
    ensures UniqueKeys([y] + tail)
  {
    var ys := [y] + tail;
    forall a, b | 0 <= a < b < |ys| ensures ys[a].priority != ys[b].priority {
      assert ys[b] == tail[b - 1];
      if a > 0 {
        assert ys[a] == tail[a - 1];
      }
    }
  }

  /** Dropping the same item from a selection and from what it selects from keeps the selection. */
  lemma DropBoth<V>(xs: seq<Held<V>>, ys: seq<Held<V>>, i: nat)
    requires ys != [] && i < |xs| && xs[i] == ys[0] && multiset(ys) <= multiset(xs)
    ensures multiset(ys[1..]) <= multiset(xs[..i] + xs[i + 1..])
  {
    var xs' := xs[..i] + xs[i + 1..];
    assert ys == [ys[0]] + ys[1..];
    assert xs == xs[..i] + [xs[i]] + xs[i + 1..];
    assert multiset(ys) == multiset{ys[0]} + multiset(ys[1..]);
    assert multiset(xs) == multiset(xs') + multiset{xs[i]};
    forall z ensures multiset(ys[1..])[z] <= multiset(xs')[z] {
      assert multiset(ys)[z] <= multiset(xs)[z];
    }
  }

  /** An item whose key no item of `xs` has shares it with no selection from `xs`. */
  lemma ApartFrom<V>(y: Held<V>, xs: seq<Held<V>>, tail: seq<Held<V>>)
    requires multiset(tail) <= multiset(xs)
    requires forall x :: x in multiset(xs) ==> x.priority != y.priority
    ensures forall b :: 0 <= b < |tail| ==> y.priority != tail[b].priority
  {
    forall b | 0 <= b < |tail| ensures y.priority != tail[b].priority {
      assert tail[b] in multiset(xs);
    }
  }

  /** Any selection, with multiplicity, of items with unique keys has unique keys. */
  lemma {:induction false} SubUnique<V>(xs: seq<Held<V>>, ys: seq<Held<V>>)
    requires UniqueKeys(xs) && multiset(ys) <= multiset(xs)
    ensures UniqueKeys(ys)
  {
    if ys != [] {
      var y := ys[0];
      var tail := ys[1..];
      assert ys == [y] + tail;
      assert y in multiset(xs);
      var i :| 0 <= i < |xs| && xs[i] == y;
      var xs' := xs[..i] + xs[i + 1..];
      DropUnique(xs, i);
      DropBoth(xs, ys, i);
      SubUnique(xs', tail);
      ApartFrom(y, xs', tail);
      ConsUnique(y, tail);
    }
  }

  /** Over sorted shards with disjoint keys, as a sorted map's shards are, the merge hands out
      strictly ascending keys, so every key at most once. */
  lemma StrictlyAscending<V>(streams: seq<seq<(int, V)>>, popped: seq<Held<V>>)
    requires Sorted(streams) && Disjoint(streams) && Drawn(streams, popped)
    ensures forall a, b :: 0 <= a < b < |popped| ==> popped[a].priority < popped[b].priority
  {
    var t := Tag(streams);
    forall s | 0 <= s < |t| ensures UniqueKeys(t[s]) {
      assert Ascending(streams[s]);
      forall a, b | 0 <= a < b < |t[s]| ensures t[s][a].priority != t[s][b].priority {
        assert t[s][a].priority == streams[s][a].0 && t[s][b].priority == streams[s][b].0;
      }
    }
    forall s, u, i, j | 0 <= s < u < |t| && 0 <= i < |t[s]| && 0 <= j < |t[u]|
      ensures t[s][i].priority != t[u][j].priority
    {
      assert t[s][i].priority == streams[s][i].0 && t[u][j].priority == streams[u][j].0;
    }
    FlattenUnique(t);
    SubUnique(Flatten(t), popped);
  }
}
