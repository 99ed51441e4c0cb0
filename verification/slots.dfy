/** The theory shared by the three insertion-ordered maps (sequencedmap, orderedmap and map):
    an append-only slot array in which deletes leave tombstones, a key -> slot index `table`,
    and the (key, value) sequence the map stands for. */
module Slots {
  import opened Iteration

  /** One slot; `deleted` marks a tombstone. */
  datatype Entry<K, V> = Entry(key: K, value: V, deleted: bool)

  /** The live slots, in slot order: what compaction keeps. */
  function Kept<K, V>(s: seq<Entry<K, V>>): (r: seq<Entry<K, V>>)
    ensures |r| <= |s|
  {
    if s == [] then []
    else (if s[0].deleted then [] else [s[0]]) + Kept(s[1..])
  }

  function Tombstones<K, V>(s: seq<Entry<K, V>>): nat {
    if s == [] then 0
    else (if s[0].deleted then 1 else 0) + Tombstones(s[1..])
  }

  function Pairs<K, V>(es: seq<Entry<K, V>>): (r: seq<(K, V)>)
    ensures |r| == |es|
  {
    seq(|es|, i requires 0 <= i < |es| => (es[i].key, es[i].value))
  }

  /** The contents of a slot array: its live (key, value) pairs in slot order. */
  function Live<K, V>(s: seq<Entry<K, V>>): seq<(K, V)> {
    Pairs(Kept(s))
  }

  ghost predicate NoTombstones<K, V>(s: seq<Entry<K, V>>) {
    forall i :: 0 <= i < |s| ==> !s[i].deleted
  }

  /** The index invariant: `table[k] == i` exactly when slot `i` is live and holds `k`. */
  ghost predicate Indexed<K, V>(table: map<K, int>, s: seq<Entry<K, V>>) {
    && (forall k :: k in table ==> 0 <= table[k] < |s| && !s[table[k]].deleted && s[table[k]].key == k)
    && (forall i :: 0 <= i < |s| && !s[i].deleted ==> s[i].key in table && table[s[i].key] == i)
  }

  // ---------------------------------------------------------------- the abstract (key, value) view

  /** Reference lookup: the value paired with the first occurrence of `k`. */
  function Lookup<K(==), V>(ps: seq<(K, V)>, k: K): Option<V> {
    if ps == [] then None
    else if ps[0].0 == k then Some(ps[0].1)
    else Lookup(ps[1..], k)
  }

  ghost predicate UniqueKeys<K, V>(ps: seq<(K, V)>) {
    forall i, j :: 0 <= i < j < |ps| ==> ps[i].0 != ps[j].0
  }

  function SetValue<K(==), V>(ps: seq<(K, V)>, k: K, v: V): (r: seq<(K, V)>)
    ensures |r| == |ps|
  {
    seq(|ps|, i requires 0 <= i < |ps| => if ps[i].0 == k then (k, v) else ps[i])
  }

  /** What a put does to the contents: overwrite in place when present, append otherwise. */
  function Upsert<K(==), V>(ps: seq<(K, V)>, k: K, v: V): seq<(K, V)> {
    if Lookup(ps, k).Some? then SetValue(ps, k, v) else ps + [(k, v)]
  }

  /** What a delete does to the contents. */
  function Without<K(==), V>(ps: seq<(K, V)>, k: K): seq<(K, V)> {
    if ps == [] then []
    else (if ps[0].0 == k then [] else [ps[0]]) + Without(ps[1..], k)
  }

  // ---------------------------------------------------------------- lemmas on the abstract view

  lemma {:induction false} LookupAt<K, V>(ps: seq<(K, V)>, i: nat)
    requires UniqueKeys(ps) && i < |ps|
    ensures Lookup(ps, ps[i].0) == Some(ps[i].1)
  {
    if i > 0 {
      assert ps[0].0 != ps[i].0;
      LookupAt(ps[1..], i - 1);
    }
  }

  lemma {:induction false} LookupAbsent<K, V>(ps: seq<(K, V)>, k: K)
    requires forall i :: 0 <= i < |ps| ==> ps[i].0 != k
    ensures Lookup(ps, k) == None
  {
    if ps != [] {
      LookupAbsent(ps[1..], k);
    }
  }

  lemma {:induction false} LookupFound<K, V>(ps: seq<(K, V)>, k: K)
    requires Lookup(ps, k).Some?
    ensures exists i :: 0 <= i < |ps| && ps[i] == (k, Lookup(ps, k).value)
  {
    if ps[0].0 != k {
      LookupFound(ps[1..], k);
      var i :| 0 <= i < |ps| - 1 && ps[1..][i] == (k, Lookup(ps, k).value);
      assert ps[i + 1] == (k, Lookup(ps, k).value);
    }
  }

  /** Get after put: the key now maps to the new value and every other key is untouched. */
  lemma UpsertLookup<K, V>(ps: seq<(K, V)>, k: K, v: V, k': K)
    requires UniqueKeys(ps)
    ensures UniqueKeys(Upsert(ps, k, v))
    ensures Lookup(Upsert(ps, k, v), k') == if k' == k then Some(v) else Lookup(ps, k')
  {
    var r := Upsert(ps, k, v);
    if Lookup(ps, k).Some? {
      LookupFound(ps, k);
      var i :| 0 <= i < |ps| && ps[i].0 == k;
      assert r[i] == (k, v);
      assert forall j :: 0 <= j < |ps| ==> r[j].0 == ps[j].0;
      if k' == k {
        LookupAt(r, i);
      } else if Lookup(ps, k').Some? {
        LookupFound(ps, k');
        var j :| 0 <= j < |ps| && ps[j] == (k', Lookup(ps, k').value);
        LookupAt(r, j);
      } else {
        forall j | 0 <= j < |r| ensures r[j].0 != k' {
          if r[j].0 == k' {
            LookupAt(ps, j);
          }
        }
        LookupAbsent(r, k');
      }
    } else {
      forall j | 0 <= j < |ps| ensures ps[j].0 != k {
        if ps[j].0 == k { LookupAt(ps, j); }
      }
      assert UniqueKeys(r);
      if k' == k {
        LookupAt(r, |ps|);
      } else {
        LookupAppend(ps, (k, v), k');
      }
    }
  }

  /** A put adds only the new pair: every other pair was there before, under another key. */
  lemma UpsertMember<K, V>(ps: seq<(K, V)>, k: K, v: V)
    ensures forall x :: x in Upsert(ps, k, v) ==> x == (k, v) || (x in ps && x.0 != k)
  {
    var r := Upsert(ps, k, v);
    forall x | x in r ensures x == (k, v) || (x in ps && x.0 != k) {
      var i :| 0 <= i < |r| && r[i] == x;
      if Lookup(ps, k).Some? {
        assert r[i] == if ps[i].0 == k then (k, v) else ps[i];
      } else if i < |ps| {
        LookupNoneAbsent(ps, k);
        assert r[i] == ps[i];
      }
    }
  }

  lemma {:induction false} LookupAppend<K, V>(ps: seq<(K, V)>, p: (K, V), k: K)
    requires p.0 != k
    ensures Lookup(ps + [p], k) == Lookup(ps, k)
  {
    if ps == [] {
    } else {
      assert (ps + [p])[1..] == ps[1..] + [p];
      LookupAppend(ps[1..], p, k);
    }
  }

  lemma {:induction false} WithoutConcat<K, V>(a: seq<(K, V)>, b: seq<(K, V)>, k: K)
    ensures Without(a + b, k) == Without(a, k) + Without(b, k)
  {
    if a == [] {
      assert a + b == b;
    } else {
      assert (a + b)[1..] == a[1..] + b;
      WithoutConcat(a[1..], b, k);
    }
  }

  lemma {:induction false} WithoutAbsent<K, V>(ps: seq<(K, V)>, k: K)
    requires forall i :: 0 <= i < |ps| ==> ps[i].0 != k
    ensures Without(ps, k) == ps
  {
    if ps != [] {
      WithoutAbsent(ps[1..], k);
    }
  }

  /** Get after delete: the key is gone and every other key is untouched. */
  lemma {:induction false} WithoutLookup<K, V>(ps: seq<(K, V)>, k: K, k': K)
    ensures Lookup(Without(ps, k), k') == if k' == k then None else Lookup(ps, k')
  {
    if ps != [] {
      WithoutLookup(ps[1..], k, k');
      if ps[0].0 != k {
        assert Without(ps, k) == [ps[0]] + Without(ps[1..], k);
        assert Without(ps, k)[1..] == Without(ps[1..], k);
      } else {
        assert Without(ps, k) == Without(ps[1..], k);
      }
    }
  }

  lemma {:induction false} WithoutSubsequence<K, V>(ps: seq<(K, V)>, k: K)
    ensures forall x :: x in Without(ps, k) ==> x in ps && x.0 != k
  {
    if ps != [] {
      WithoutSubsequence(ps[1..], k);
    }
  }

  lemma {:induction false} LookupNoneAbsent<K, V>(ps: seq<(K, V)>, k: K)
    requires Lookup(ps, k) == None
    ensures forall i :: 0 <= i < |ps| ==> ps[i].0 != k
  {
    if ps != [] {
      LookupNoneAbsent(ps[1..], k);
      forall i | 1 <= i < |ps| ensures ps[i].0 != k {
        assert ps[i] == ps[1..][i - 1];
      }
    }
  }

  /** A put on a present key changes no key and no position. */
  lemma UpdateKeepsOrder<K, V>(ps: seq<(K, V)>, k: K, v: V)
    requires Lookup(ps, k).Some?
    ensures Mapped(Key, Upsert(ps, k, v)) == Mapped(Key, ps)
  {
    var r := Upsert(ps, k, v);
    assert r == SetValue(ps, k, v);
    forall i | 0 <= i < |ps| ensures Mapped(Key, r)[i] == Mapped(Key, ps)[i] {
      assert Key(r[i]) == Key(ps[i]);
    }
  }

  /** A key that was deleted and put again moves to the end. */
  lemma ReinsertMovesToEnd<K, V>(ps: seq<(K, V)>, k: K, v: V)
    ensures Upsert(Without(ps, k), k, v) == Without(ps, k) + [(k, v)]
  {
    WithoutLookup(ps, k, k);
  }

  /** Removing the last pair of a sequence without duplicate keys. */
  lemma WithoutLast<K, V>(ps: seq<(K, V)>)
    requires UniqueKeys(ps) && ps != []
    ensures Without(ps, ps[|ps| - 1].0) == ps[..|ps| - 1]
  {
    var la, p := ps[..|ps| - 1], ps[|ps| - 1];
    var none: seq<(K, V)> := [];
    assert ps == la + [p] + none;
    DeleteLive(la, p, none);
  }

  /** Removing the first pair of a sequence without duplicate keys. */
  lemma WithoutFirst<K, V>(ps: seq<(K, V)>)
    requires UniqueKeys(ps) && ps != []
    ensures Without(ps, ps[0].0) == ps[1..]
  {
    var none: seq<(K, V)> := [];
    assert ps == none + [ps[0]] + ps[1..];
    DeleteLive(none, ps[0], ps[1..]);
  }

  // ---------------------------------------------------------------- lemmas on slot arrays

  lemma {:induction false} KeptConcat<K, V>(a: seq<Entry<K, V>>, b: seq<Entry<K, V>>)
    ensures Kept(a + b) == Kept(a) + Kept(b)
    ensures Tombstones(a + b) == Tombstones(a) + Tombstones(b)
  {
    if a == [] {
      assert a + b == b;
    } else {
      assert (a + b)[1..] == a[1..] + b;
      KeptConcat(a[1..], b);
    }
  }

  lemma PairsConcat<K, V>(a: seq<Entry<K, V>>, b: seq<Entry<K, V>>)
    ensures Pairs(a + b) == Pairs(a) + Pairs(b)
  {
  }

  lemma PairsConcat3<K, V>(a: seq<Entry<K, V>>, b: seq<Entry<K, V>>, c: seq<Entry<K, V>>)
    ensures Pairs(a + b + c) == Pairs(a) + Pairs(b) + Pairs(c)
  {
    PairsConcat(a + b, c);
    PairsConcat(a, b);
  }

  lemma LiveConcat<K, V>(a: seq<Entry<K, V>>, b: seq<Entry<K, V>>)
    ensures Live(a + b) == Live(a) + Live(b)
    ensures Tombstones(a + b) == Tombstones(a) + Tombstones(b)
  {
    KeptConcat(a, b);
    PairsConcat(Kept(a), Kept(b));
  }

  lemma KeptSingle<K, V>(e: Entry<K, V>)
    ensures Kept([e]) == if e.deleted then [] else [e]
    ensures Tombstones([e]) == if e.deleted then 1 else 0
  {
    assert [e][..0] == [];
  }

  /** Splitting a slot array around slot `i`. */
  lemma Split3<K, V>(a: seq<Entry<K, V>>, x: Entry<K, V>, b: seq<Entry<K, V>>)
    ensures Kept(a + [x] + b) == Kept(a) + Kept([x]) + Kept(b)
    ensures Tombstones(a + [x] + b) == Tombstones(a) + Tombstones([x]) + Tombstones(b)
  {
    KeptConcat(a + [x], b);
    KeptConcat(a, [x]);
  }

  lemma SplitKept<K, V>(s: seq<Entry<K, V>>, i: nat)
    requires i < |s|
    ensures Kept(s) == Kept(s[..i]) + Kept([s[i]]) + Kept(s[i + 1..])
    ensures Tombstones(s) == Tombstones(s[..i]) + Tombstones([s[i]]) + Tombstones(s[i + 1..])
  {
    var a, x, b := s[..i], s[i], s[i + 1..];
    assert s == a + [x] + b;
    Split3(a, x, b);
  }

  lemma LiveSplit3<K, V>(a: seq<Entry<K, V>>, x: Entry<K, V>, b: seq<Entry<K, V>>)
    ensures Live(a + [x] + b) == Live(a) + (if x.deleted then [] else [(x.key, x.value)]) + Live(b)
  {
    Split3(a, x, b);
    KeptSingle(x);
    PairsConcat3(Kept(a), Kept([x]), Kept(b));
    assert Pairs(Kept([x])) == if x.deleted then [] else [(x.key, x.value)];
  }

  lemma SplitAt<K, V>(s: seq<Entry<K, V>>, i: nat)
    requires i < |s|
    ensures Kept(s) == Kept(s[..i]) + (if s[i].deleted then [] else [s[i]]) + Kept(s[i + 1..])
    ensures Live(s) == Live(s[..i]) + (if s[i].deleted then [] else [(s[i].key, s[i].value)]) + Live(s[i + 1..])
    ensures Tombstones(s) == Tombstones(s[..i]) + (if s[i].deleted then 1 else 0) + Tombstones(s[i + 1..])
  {
    var a, x, b := s[..i], s[i], s[i + 1..];
    assert s == a + [x] + b;
    Split3(a, x, b);
    KeptSingle(x);
    LiveSplit3(a, x, b);
  }

  /** A live slot `i` lands at position |Kept(s[..i])| after compaction. */
  lemma KeptIndex<K, V>(s: seq<Entry<K, V>>, i: nat)
    requires i < |s| && !s[i].deleted
    ensures |Kept(s[..i])| < |Kept(s)| && Kept(s)[|Kept(s[..i])|] == s[i]
  {
    SplitAt(s, i);
  }

  /** One more slot of a prefix. */
  lemma KeptPrefix<K, V>(s: seq<Entry<K, V>>, i: nat)
    requires i < |s|
    ensures Kept(s[..i + 1]) == Kept(s[..i]) + (if s[i].deleted then [] else [s[i]])
    ensures Live(s[..i + 1]) == Live(s[..i]) + (if s[i].deleted then [] else [(s[i].key, s[i].value)])
  {
    var a, x, none := s[..i], s[i], s[..0];
    assert none == [];
    assert s[..i + 1] == a + [x] + none;
    Split3(a, x, none);
    LiveSplit3(a, x, none);
    KeptSingle(x);
  }

  /** The slots after position i are all tombstones. */
  ghost predicate DeadAfter<K, V>(s: seq<Entry<K, V>>, i: int)
    requires -1 <= i < |s|
  {
    forall j :: i < j < |s| ==> s[j].deleted
  }

  lemma {:induction false} DeadSuffix<K, V>(s: seq<Entry<K, V>>, i: int)
    requires -1 <= i < |s| && DeadAfter(s, i)
    ensures Live(s) == Live(s[..i + 1])
    decreases |s| - i
  {
    if i < |s| - 1 {
      DeadSuffix(s, i + 1);
      KeptPrefix(s, i + 1);
    } else {
      assert s[..i + 1] == s;
    }
  }

  /** The slots before position i are all tombstones. */
  lemma {:induction false} DeadPrefix<K, V>(s: seq<Entry<K, V>>, i: nat)
    requires i <= |s| && forall j :: 0 <= j < i ==> s[j].deleted
    ensures Live(s[..i]) == []
  {
    if i > 0 {
      DeadPrefix(s, i - 1);
      KeptPrefix(s, i - 1);
    } else {
      assert s[..0] == [];
    }
  }

  /** Two indexes of the same slots are the same index. */
  lemma IndexDetermined<K, V>(t1: map<K, int>, t2: map<K, int>, s: seq<Entry<K, V>>)
    requires Indexed(t1, s) && Indexed(t2, s)
    ensures t1 == t2
  {
    assert t1.Keys == t2.Keys;
  }

  /** Every compacted position comes from a live slot. */
  lemma {:induction false} KeptOrigin<K, V>(s: seq<Entry<K, V>>, p: nat)
    requires p < |Kept(s)|
    ensures exists q :: 0 <= q < |s| && !s[q].deleted && |Kept(s[..q])| == p && Kept(s)[p] == s[q]
  {
    assert s[..0] == [];
    if s[0].deleted || p > 0 {
      var p' := if s[0].deleted then p else p - 1;
      KeptOrigin(s[1..], p');
      var q :| 0 <= q < |s| - 1 && !s[1..][q].deleted && |Kept(s[1..][..q])| == p' && Kept(s[1..])[p'] == s[1..][q];
      assert s[..q + 1][1..] == s[1..][..q];
      assert 0 <= q + 1 < |s| && !s[q + 1].deleted && |Kept(s[..q + 1])| == p && Kept(s)[p] == s[q + 1];
    }
  }

  lemma {:induction false} KeptProperties<K, V>(s: seq<Entry<K, V>>)
    ensures NoTombstones(Kept(s)) && Tombstones(Kept(s)) == 0
    ensures Kept(Kept(s)) == Kept(s)
    ensures |Kept(s)| + Tombstones(s) == |s|
  {
    if s != [] {
      var t := s[1..];
      KeptProperties(t);
      var r, k := Kept(t), Kept(s);
      if s[0].deleted {
        assert k == r;
      } else {
        assert k == [s[0]] + r;
        assert k[0] == s[0] && k[1..] == r;
        assert Kept(k) == [s[0]] + Kept(r);
      }
    }
  }

  lemma {:induction false} NoTombstonesKept<K, V>(s: seq<Entry<K, V>>)
    requires Tombstones(s) == 0
    ensures NoTombstones(s) && Kept(s) == s
  {
    if s != [] {
      NoTombstonesKept(s[1..]);
      assert s == [s[0]] + s[1..];
    }
  }

  /** Ranging over every slot shows the contents exactly when there is no tombstone: each
      tombstone adds a pair that the contents do not hold. */
  lemma AllSlotsShowTombstones<K, V>(s: seq<Entry<K, V>>)
    ensures Pairs(s) == Live(s) <==> Tombstones(s) == 0
    ensures |Pairs(s)| == |Live(s)| + Tombstones(s)
  {
    KeptProperties(s);
    if Tombstones(s) == 0 {
      NoTombstonesKept(s);
    }
  }

  // ---------------------------------------------------------------- the index invariant at work

  /** The O(1) index lookup agrees with the reference lookup over the contents, and the
      contents have no duplicate keys. */
  lemma IndexedLookup<K, V>(table: map<K, int>, s: seq<Entry<K, V>>, k: K)
    requires Indexed(table, s)
    ensures UniqueKeys(Live(s))
    ensures Lookup(Live(s), k) == if k in table then Some(s[table[k]].value) else None
  {
    IndexedUnique(table, s);
    var live := Live(s);
    if k in table {
      var q := table[k];
      KeptIndex(s, q);
      LookupAt(live, |Kept(s[..q])|);
    } else {
      forall p | 0 <= p < |live| ensures live[p].0 != k {
        KeptOrigin(s, p);
      }
      LookupAbsent(live, k);
    }
  }

  lemma IndexedUnique<K, V>(table: map<K, int>, s: seq<Entry<K, V>>)
    requires Indexed(table, s)
    ensures UniqueKeys(Live(s))
  {
    var live := Live(s);
    forall p1, p2 | 0 <= p1 < p2 < |live| ensures live[p1].0 != live[p2].0 {
      KeptOrigin(s, p1);
      KeptOrigin(s, p2);
    }
  }

  /** `len(table)` counts the live slots. */
  lemma {:induction false} IndexedCard<K, V>(table: map<K, int>, s: seq<Entry<K, V>>)
    requires Indexed(table, s)
    ensures |table| == |Live(s)|
    decreases |s|
  {
    if s == [] {
      assert table.Keys == {};
    } else {
      var s' := s[..|s| - 1];
      var e := s[|s| - 1];
      assert s == s' + [e];
      KeptConcat(s', [e]);
      KeptSingle(e);
      if e.deleted {
        assert Indexed(table, s');
        IndexedCard(table, s');
      } else {
        var t' := table - {e.key};
        assert Indexed(t', s');
        IndexedCard(t', s');
        assert t'.Keys == table.Keys - {e.key};
      }
    }
  }

  /** Overwriting the value of an indexed key keeps its slot and the index. */
  lemma PutExisting<K, V>(table: map<K, int>, s: seq<Entry<K, V>>, k: K, v: V)
    requires Indexed(table, s) && k in table
    ensures var s' := s[table[k] := Entry(k, v, false)];
      && Indexed(table, s')
      && Live(s') == Upsert(Live(s), k, v)
      && Tombstones(s') == Tombstones(s)
  {
    var i := table[k];
    var a, x, b := s[..i], s[i], s[i + 1..];
    var x' := Entry(k, v, false);
    var s' := s[i := x'];
    assert s == a + [x] + b && s' == a + [x'] + b;
    LiveSplit3(a, x, b);
    LiveSplit3(a, x', b);
    Split3(a, x, b);
    Split3(a, x', b);
    KeptSingle(x);
    KeptSingle(x');
    IndexedLookup(table, s, k);
    var la, lb := Live(a), Live(b);
    var live, live' := la + [(k, x.value)] + lb, la + [(k, v)] + lb;
    assert Live(s) == live && Live(s') == live';
    forall y | 0 <= y < |live| ensures live'[y] == SetValue(live, k, v)[y] {
      if y != |la| {
        assert live'[y] == live[y];
        assert live[|la|].0 == k;
      }
    }
  }

  /** Appending a fresh key indexes it at the end. */
  lemma PutNew<K, V>(table: map<K, int>, s: seq<Entry<K, V>>, k: K, v: V)
    requires Indexed(table, s) && k !in table
    ensures var s' := s + [Entry(k, v, false)];
      && Indexed(table[k := |s|], s')
      && Live(s') == Upsert(Live(s), k, v)
      && Tombstones(s') == Tombstones(s)
  {
    var e := Entry(k, v, false);
    LiveConcat(s, [e]);
    KeptSingle(e);
    assert Live([e]) == [(k, v)];
    IndexedLookup(table, s, k);
    AppendIndexed(table, s, e);
  }

  lemma AppendIndexed<K, V>(table: map<K, int>, s: seq<Entry<K, V>>, e: Entry<K, V>)
    requires Indexed(table, s) && e.key !in table && !e.deleted
    ensures Indexed(table[e.key := |s|], s + [e])
  {
    var s', t' := s + [e], table[e.key := |s|];
    forall q | 0 <= q < |s'| && !s'[q].deleted ensures s'[q].key in t' && t'[s'[q].key] == q {
      if q < |s| {
        assert s'[q] == s[q];
      }
    }
  }

  /** Tombstoning the slot of an indexed key and unindexing it. */
  lemma DeleteSlot<K, V>(table: map<K, int>, s: seq<Entry<K, V>>, k: K, tomb: Entry<K, V>)
    requires Indexed(table, s) && k in table && tomb.deleted
    ensures var s' := s[table[k] := tomb];
      && Indexed(table - {k}, s')
      && Live(s') == Without(Live(s), k)
      && Tombstones(s') == Tombstones(s) + 1
  {
    DeleteIndexed(table, s, k, tomb);
    DeleteSlotLive(table, s, k, tomb);
    TombstoneSlot(s, table[k], tomb);
  }

  lemma DeleteSlotLive<K, V>(table: map<K, int>, s: seq<Entry<K, V>>, k: K, tomb: Entry<K, V>)
    requires Indexed(table, s) && k in table && tomb.deleted
    ensures Live(s[table[k] := tomb]) == Without(Live(s), k)
  {
    var i := table[k];
    var a, x, b := s[..i], s[i], s[i + 1..];
    assert s == a + [x] + b && s[i := tomb] == a + [tomb] + b;
    LiveSplit3(a, x, b);
    LiveSplit3(a, tomb, b);
    IndexedUnique(table, s);
    DeleteLive(Live(a), (k, x.value), Live(b));
  }

  /** Tombstoning a live slot adds one tombstone. */
  lemma TombstoneSlot<K, V>(s: seq<Entry<K, V>>, i: nat, tomb: Entry<K, V>)
    requires i < |s| && !s[i].deleted && tomb.deleted
    ensures Tombstones(s[i := tomb]) == Tombstones(s) + 1
  {
    var a, x, b := s[..i], s[i], s[i + 1..];
    assert s == a + [x] + b && s[i := tomb] == a + [tomb] + b;
    Split3(a, x, b);
    Split3(a, tomb, b);
    KeptSingle(x);
    KeptSingle(tomb);
  }

  lemma DeleteIndexed<K, V>(table: map<K, int>, s: seq<Entry<K, V>>, k: K, tomb: Entry<K, V>)
    requires Indexed(table, s) && k in table && tomb.deleted
    ensures Indexed(table - {k}, s[table[k] := tomb])
  {
  }

  lemma DeleteLive<K, V>(la: seq<(K, V)>, p: (K, V), lb: seq<(K, V)>)
    requires UniqueKeys(la + [p] + lb)
    ensures Without(la + [p] + lb, p.0) == la + lb
  {
    var live, k := la + [p] + lb, p.0;
    forall y | 0 <= y < |la| ensures la[y].0 != k {
      assert live[y] == la[y] && live[|la|] == p;
    }
    forall y | 0 <= y < |lb| ensures lb[y].0 != k {
      assert live[|la| + 1 + y] == lb[y] && live[|la|] == p;
    }
    WithoutAbsent(la, k);
    WithoutAbsent(lb, k);
    WithoutConcat(la + [p], lb, k);
    WithoutConcat(la, [p], k);
    assert Without([p], k) == [];
  }

  /** After compaction every key is re-pointed at |Kept(s[..old index])|. */
  ghost predicate Repointed<K, V>(t0: map<K, int>, s0: seq<Entry<K, V>>, t: map<K, int>)
    requires forall k :: k in t0 ==> 0 <= t0[k] <= |s0|
  {
    t.Keys == t0.Keys && forall k :: k in t ==> t[k] == |Kept(s0[..t0[k]])|
  }

  lemma CompactIndexed<K, V>(t0: map<K, int>, s0: seq<Entry<K, V>>, t: map<K, int>)
    requires Indexed(t0, s0) && Repointed(t0, s0, t)
    ensures Indexed(t, Kept(s0)) && NoTombstones(Kept(s0)) && Live(Kept(s0)) == Live(s0)
  {
    KeptProperties(s0);
    var s := Kept(s0);
    forall k | k in t ensures 0 <= t[k] < |s| && !s[t[k]].deleted && s[t[k]].key == k {
      KeptIndex(s0, t0[k]);
    }
    forall p | 0 <= p < |s| && !s[p].deleted ensures s[p].key in t && t[s[p].key] == p {
      KeptOrigin(s0, p);
    }
  }

  /** The index part of a compaction that has examined the first `i` slots: keys of examined
      slots point at their new positions, the others still at their old ones. */
  ghost predicate Reindexed<K, V>(s0: seq<Entry<K, V>>, t0: map<K, int>, t: map<K, int>, i: int)
  {
    && Indexed(t0, s0)
    && t.Keys == t0.Keys
    && forall k :: k in t0 ==> t[k] == if t0[k] < i then |Kept(s0[..t0[k]])| else t0[k]
  }

  /** The state of the in-place two-index compaction after `i` slots were examined and
      `j` live slots moved to the front. */
  ghost predicate CompactInv<K, V>(s0: seq<Entry<K, V>>, t0: map<K, int>, s: seq<Entry<K, V>>, t: map<K, int>, i: int, j: int)
  {
    && Reindexed(s0, t0, t, i)
    && 0 <= j <= i <= |s| == |s0|
    && s[..j] == Kept(s0[..i]) && s[i..] == s0[i..]
  }

  /** The state of the rebuilding compaction after `i` slots were examined. */
  ghost predicate RebuildInv<K, V>(s0: seq<Entry<K, V>>, t0: map<K, int>, ns: seq<Entry<K, V>>, t: map<K, int>, i: int)
  {
    && Reindexed(s0, t0, t, i)
    && 0 <= i <= |s0|
    && ns == Kept(s0[..i])
  }

  lemma RebuildStart<K, V>(s0: seq<Entry<K, V>>, t0: map<K, int>)
    requires Indexed(t0, s0)
    ensures RebuildInv(s0, t0, [], t0, 0)
  {
    assert s0[..0] == [];
  }

  lemma RebuildStep<K, V>(s0: seq<Entry<K, V>>, t0: map<K, int>, ns: seq<Entry<K, V>>, t: map<K, int>, i: int)
    requires RebuildInv(s0, t0, ns, t, i) && i < |s0|
    ensures s0[i].deleted ==> RebuildInv(s0, t0, ns, t, i + 1)
    ensures !s0[i].deleted ==> RebuildInv(s0, t0, ns + [s0[i]], t[s0[i].key := |ns|], i + 1)
  {
    KeptPrefix(s0, i);
    if s0[i].deleted {
      forall k | k in t0 ensures t0[k] != i {
      }
    } else {
      assert t0[s0[i].key] == i;
    }
  }

  lemma RebuildEnd<K, V>(s0: seq<Entry<K, V>>, t0: map<K, int>, ns: seq<Entry<K, V>>, t: map<K, int>)
    requires RebuildInv(s0, t0, ns, t, |s0|)
    ensures ns == Kept(s0) && Indexed(t, ns) && Live(ns) == Live(s0) && Tombstones(ns) == 0
  {
    assert s0[..|s0|] == s0;
    CompactIndexed(t0, s0, t);
    KeptProperties(s0);
  }

  lemma CompactStart<K, V>(s0: seq<Entry<K, V>>, t0: map<K, int>)
    requires Indexed(t0, s0)
    ensures CompactInv(s0, t0, s0, t0, 0, 0)
  {
    assert s0[..0] == [];
  }

  /** A tombstone at `i` is skipped; a live slot is moved down to `j` (or stays, when i == j). */
  lemma CompactStep<K, V>(s0: seq<Entry<K, V>>, t0: map<K, int>, s: seq<Entry<K, V>>, t: map<K, int>, i: int, j: int)
    requires CompactInv(s0, t0, s, t, i, j) && i < |s|
    ensures s[i] == s0[i]
    ensures s[i].deleted ==> CompactInv(s0, t0, s, t, i + 1, j)
    ensures !s[i].deleted && i == j ==> CompactInv(s0, t0, s, t, i + 1, j + 1)
    ensures !s[i].deleted && i != j ==> CompactInv(s0, t0, s[j := s[i]], t[s[i].key := j], i + 1, j + 1)
  {
    assert s[i..][0] == s[i];
    KeptPrefix(s0, i);
    var x := s0[i];
    assert s[i + 1..] == s0[i + 1..] by {
      assert s[i + 1..] == s[i..][1..];
      assert s0[i + 1..] == s0[i..][1..];
    }
    if !x.deleted {
      assert t0[x.key] == i;
      if i != j {
        var s' := s[j := x];
        assert s'[..j + 1] == s[..j] + [x];
        assert s'[i + 1..] == s[i + 1..];
      } else {
        assert s[..j + 1] == s[..j] + [x];
      }
    } else {
      forall k | k in t0 ensures t0[k] != i {
      }
    }
  }

  lemma CompactEnd<K, V>(s0: seq<Entry<K, V>>, t0: map<K, int>, s: seq<Entry<K, V>>, t: map<K, int>, j: int)
    requires CompactInv(s0, t0, s, t, |s0|, j)
    ensures s[..j] == Kept(s0) && Indexed(t, Kept(s0)) && Live(Kept(s0)) == Live(s0)
    ensures Tombstones(Kept(s0)) == 0
  {
    assert s0[..|s0|] == s0;
    CompactIndexed(t0, s0, t);
    KeptProperties(s0);
  }

  // ---------------------------------------------------------------- traversals

  function Key<K, V>(p: (K, V)): K { p.0 }
  function Value<K, V>(p: (K, V)): V { p.1 }

  /** The reverse traversal exactly as written: from the last slot down, skipping tombstones,
      ending right after the consumer refuses a pair. `i` slots remain to be visited. */
  function BackwardFrom<K, V>(s: seq<Entry<K, V>>, accept: seq<(K, V)> -> bool, i: nat, out: seq<(K, V)>)
    : seq<(K, V)>
    requires i <= |s|
    decreases i
  {
    if i == 0 then out
    else if s[i - 1].deleted then BackwardFrom(s, accept, i - 1, out)
    else
      var out' := out + [(s[i - 1].key, s[i - 1].value)];
      if !accept(out') then out' else BackwardFrom(s, accept, i - 1, out')
  }

  lemma {:induction false} BackwardFromSpec<K, V>(s: seq<Entry<K, V>>, accept: seq<(K, V)> -> bool, i: nat,
                                                  out: seq<(K, V)>, items: seq<(K, V)>)
    requires i <= |s|
    requires items == out + Reverse(Live(s[..i]))
    requires StopAt(items, accept, 0) == StopAt(items, accept, |out|)
    ensures BackwardFrom(s, accept, i, out) == Consume(items, accept)
    decreases i
  {
    if i == 0 {
      var none := s[..0];
      assert none == [];
      assert Live(none) == [];
      ConsumeEnd(items, accept);
    } else {
      var front, x := s[..i - 1], s[i - 1];
      assert s[..i] == front + [x];
      ReverseLiveSnoc(front, x);
      if x.deleted {
        BackwardFromSpec(s, accept, i - 1, out, items);
      } else {
        var p := (x.key, x.value);
        ConsumeStep(items, accept, out, p, Reverse(Live(front)));
        if accept(out + [p]) {
          BackwardFromSpec(s, accept, i - 1, out + [p], items);
        }
      }
    }
  }

  lemma ReverseLiveSnoc<K, V>(front: seq<Entry<K, V>>, x: Entry<K, V>)
    ensures Reverse(Live(front + [x])) == (if x.deleted then [] else [(x.key, x.value)]) + Reverse(Live(front))
  {
    LiveConcat(front, [x]);
    KeptSingle(x);
    ReverseConcat(Live(front), Live([x]));
    assert Live([x]) == if x.deleted then [] else [(x.key, x.value)];
    assert Reverse([(x.key, x.value)]) == [(x.key, x.value)];
  }

  /** Reverse traversal: the live pairs in reverse slot order, as far as the consumer takes them. */
  function Backward<K, V>(s: seq<Entry<K, V>>, accept: seq<(K, V)> -> bool): (r: seq<(K, V)>)
    ensures r == Consume(Reverse(Live(s)), accept)
  {
    assert s[..|s|] == s;
    BackwardFromSpec(s, accept, |s|, [], Reverse(Live(s)));
    BackwardFrom(s, accept, |s|, [])
  }

  lemma MappedLiveCons<K, V, T>(f: ((K, V)) -> T, x: Entry<K, V>, rest: seq<Entry<K, V>>)
    ensures Mapped(f, Live([x] + rest)) == (if x.deleted then [] else [f((x.key, x.value))]) + Mapped(f, Live(rest))
  {
    LiveConcat([x], rest);
    KeptSingle(x);
    MappedConcat(f, Live([x]), Live(rest));
    assert Live([x]) == if x.deleted then [] else [(x.key, x.value)];
  }

  /** Forward traversal of the live slots, delivering `f` of each live (key, value) pair: the
      loop shared by `All` (f is the pair itself), `Keys` and `Values`. */
  method Traverse<K, V, T>(s: seq<Entry<K, V>>, f: ((K, V)) -> T, accept: seq<T> -> bool) returns (out: seq<T>)
    ensures out == Consume(Mapped(f, Live(s)), accept)
  {
    var items := Mapped(f, Live(s));
    out := [];
    var i := 0;
    assert s[i..] == s;
    while i < |s|
      invariant 0 <= i <= |s|
      invariant items == out + Mapped(f, Live(s[i..]))
      invariant StopAt(items, accept, 0) == StopAt(items, accept, |out|)
    {
      var x, rest := s[i], s[i + 1..];
      assert s[i..] == [x] + rest;
      MappedLiveCons(f, x, rest);
      if !x.deleted {
        ConsumeStep(items, accept, out, f((x.key, x.value)), Mapped(f, Live(rest)));
        out := out + [f((x.key, x.value))];
        if !accept(out) {
          return;
        }
      }
      i := i + 1;
    }
    var none := s[i..];
    assert none == [] && Live(none) == [];
    ConsumeEnd(items, accept);
  }
}
