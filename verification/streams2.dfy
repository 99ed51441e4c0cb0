/** stream (key-value half): `Stream2`, a lazy pipeline over (key, value) pairs whose stages all
    keep the pipeline's error pointer, and the stages and terminals defined on it. A pair stream
    is a `Stream` of pairs; see module Streams for how runs and the shared cell are modelled. */
module Streams2 {
  import opened Iteration
  import opened Streams

  type Stream2<K, V> = Stream<(K, V)>

  /** The struct `Collect` gathers pairs into. */
  datatype Pair<K, V> = Pair(key: K, value: V)

  // ---------------------------------------------------------------- constructors

  /** Wraps an iterator (modelled by the pairs it yields) with the caller's error pointer, or
      with a fresh cell when the caller passes nil. */
  method New2<K, V>(items: seq<(K, V)>, errPtr: Cell?) returns (s: Stream2<K, V>)
    ensures s.Err() != null && Reportable(s)
    ensures errPtr != null ==> s.wire == errPtr
    ensures errPtr == null ==> fresh(s.wire) && s.wire.value == None
    ensures forall c :: s.run(c) == Lazy(items, None)
  {
    var p := errPtr;
    if p == null {
      p := new Cell();
    }
    s := Stream(c => Lazy(items, None), p, true);
  }

  method FromSeq2<K, V>(items: seq<(K, V)>) returns (s: Stream2<K, V>)
    ensures s.Err() != null && fresh(s.wire) && s.wire.value == None && Reportable(s)
    ensures forall c :: s.run(c) == Lazy(items, None)
  {
    var cell := new Cell();
    s := Stream(c => Lazy(items, None), cell, true);
  }

  // ---------------------------------------------------------------- bridges and filters

  function PairKey<K, V>(p: (K, V)): K { p.0 }

  function PairValue<K, V>(p: (K, V)): V { p.1 }

  /** The keys, in order, on the same error pointer. */
  function Keys<K, V>(s: Stream2<K, V>): (r: Stream<K>)
    ensures r.Err() == s.Err() && r.wire == s.wire
    ensures forall c :: r.run(c).fail == s.run(c).fail && |r.run(c).items| == |s.run(c).items|
    ensures forall c, j :: 0 <= j < |s.run(c).items| ==> r.run(c).items[j] == s.run(c).items[j].0
    ensures Reportable(s) ==> Reportable(r)
  {
    Map(s, PairKey)
  }

  /** The values, in order, on the same error pointer. */
  function Values<K, V>(s: Stream2<K, V>): (r: Stream<V>)
    ensures r.Err() == s.Err() && r.wire == s.wire
    ensures forall c :: r.run(c).fail == s.run(c).fail && |r.run(c).items| == |s.run(c).items|
    ensures forall c, j :: 0 <= j < |s.run(c).items| ==> r.run(c).items[j] == s.run(c).items[j].1
    ensures Reportable(s) ==> Reportable(r)
  {
    Map(s, PairValue)
  }

  function Both<K, V>(fn: (K, V) -> bool): ((K, V)) -> bool
  {
    (p: (K, V)) => fn(p.0, p.1)
  }

  /** Unlike the single-value `Filter`, the pair filter keeps the error pointer. */
  function Filter<K, V>(s: Stream2<K, V>, fn: (K, V) -> bool): (r: Stream2<K, V>)
    ensures r.Err() == s.Err() && r.wire == s.wire
    ensures forall c :: r.run(c).items == Filtered(s.run(c).items, Both(fn))
    ensures forall c :: r.run(c).fail == s.run(c).fail
    ensures Reportable(s) ==> Reportable(r)
  {
    FilterReporting(s, Both(fn))
  }

  /** The pair `Take` keeps the error pointer but pulls like the single-value one: it compares
      its count with n only after pulling the next pair. */
  function Take<K, V>(s: Stream2<K, V>, n: int): (r: Stream2<K, V>)
    ensures r.Err() == s.Err() && r.wire == s.wire
    ensures forall c :: r.run(c) == Taken(s.run(c), n)
    ensures Reportable(s) ==> Reportable(r)
  {
    Stream(c => Taken(s.run(c), n), s.wire, s.held)
  }

  // ---------------------------------------------------------------- transformations

  function OnValue<K, V, R>(fn: V -> R): ((K, V)) -> (K, R)
  {
    (p: (K, V)) => (p.0, fn(p.1))
  }

  /** Transforms every value and keeps every key. */
  function MapValues<K, V, R>(s: Stream2<K, V>, fn: V -> R): (r: Stream2<K, R>)
    ensures r.Err() == s.Err() && r.wire == s.wire
    ensures forall c :: r.run(c).fail == s.run(c).fail && |r.run(c).items| == |s.run(c).items|
    ensures forall c, j :: 0 <= j < |s.run(c).items| ==>
      r.run(c).items[j] == (s.run(c).items[j].0, fn(s.run(c).items[j].1))
    ensures Reportable(s) ==> Reportable(r)
  {
    Map(s, OnValue(fn))
  }

  function Pairwise<K, V, R>(fn: (K, V) -> R): ((K, V)) -> R
  {
    (p: (K, V)) => fn(p.0, p.1)
  }

  function Map2<K, V, NK, NV>(s: Stream2<K, V>, fn: (K, V) -> (NK, NV)): (r: Stream2<NK, NV>)
    ensures r.Err() == s.Err() && r.wire == s.wire
    ensures forall c :: r.run(c).fail == s.run(c).fail && |r.run(c).items| == |s.run(c).items|
    ensures forall c, j :: 0 <= j < |s.run(c).items| ==>
      r.run(c).items[j] == fn(s.run(c).items[j].0, s.run(c).items[j].1)
    ensures Reportable(s) ==> Reportable(r)
  {
    Map(s, Pairwise(fn))
  }

  /** `MapErr2` writes a failure through the pointer without a nil check, as `MapErr` does. */
  function MapErr2<K, V, NK, NV>(s: Stream2<K, V>, fn: (K, V) -> Result<(NK, NV)>): (r: Stream2<NK, NV>)
    requires s.Err() != null || NeverFails(s, Pairwise(fn))
    ensures r.Err() == s.Err() && r.wire == s.wire
    ensures forall c :: r.run(c) == Fallible(s.run(c), Pairwise(fn))
    ensures s.Err() != null ==> Reportable(r)
    ensures Reportable(s) ==> Reportable(r)
  {
    Stream(c => Fallible(s.run(c), Pairwise(fn)), s.wire, s.held)
  }

  /** A fallible stage that writes its failure only through a non-nil pointer and otherwise
      just stops. */
  function Guarded<T>(l: Lazy<T>, fn: T -> Result<T>, reported: bool): (r: Lazy<T>)
    ensures r.items == Attempt(l.items, fn).items
    ensures reported ==> r == Fallible(l, fn)
    ensures !reported ==> r.fail.Some? ==> r.fail == l.fail && |r.items| == |l.items|
  {
    if reported then Fallible(l, fn)
    else
      var a := Attempt(l.items, fn);
      if a.fail.Some? then Lazy(a.items, None) else Lazy(a.items, l.fail)
  }

  function Map2Err<K, V>(s: Stream2<K, V>, fn: (K, V) -> Result<(K, V)>): (r: Stream2<K, V>)
    ensures r.Err() == s.Err() && r.wire == s.wire
    ensures forall c :: r.run(c) == Guarded(s.run(c), Pairwise(fn), s.Err() != null)
    ensures s.Err() != null ==> Reportable(r)
    ensures Reportable(s) ==> Reportable(r)
  {
    Stream(c => Guarded(s.run(c), Pairwise(fn), s.Err() != null), s.wire, s.held)
  }

  /** The pairs of every expansion, in order. */
  function Expand<K, V, NK, NV>(ps: seq<(K, V)>, fn: (K, V) -> seq<(NK, NV)>): (r: seq<(NK, NV)>)
  {
    Flatten(Mapped(Pairwise(fn), ps))
  }

  /** Expanding works pair by pair: the expansion of a concatenation is the concatenation of the
      expansions. */
  lemma ExpandConcat<K, V, NK, NV>(xs: seq<(K, V)>, ys: seq<(K, V)>, fn: (K, V) -> seq<(NK, NV)>)
    ensures Expand(xs + ys, fn) == Expand(xs, fn) + Expand(ys, fn)
  {
    MappedConcat(Pairwise(fn), xs, ys);
    FlattenConcat(Mapped(Pairwise(fn), xs), Mapped(Pairwise(fn), ys));
  }

  /** A pair is in the expansion exactly when the expansion of some input pair holds it. */
  lemma ExpandMember<K, V, NK, NV>(ps: seq<(K, V)>, fn: (K, V) -> seq<(NK, NV)>, q: (NK, NV))
    ensures q in Expand(ps, fn) <==> exists i :: 0 <= i < |ps| && q in fn(ps[i].0, ps[i].1)
  {
    var parts := Mapped(Pairwise(fn), ps);
    FlattenMember(parts, q);
    assert forall i :: 0 <= i < |ps| ==> parts[i] == fn(ps[i].0, ps[i].1);
  }

  /** `FlatMap2`'s run: before expanding each pair it reads the cell, and returns at once if it is
      set. During a run the cell changes only by the write that ends the upstream, so the cell
      it reads is the one the run starts with. */
  function Spread<K, V, NK, NV>(l: Lazy<(K, V)>, fn: (K, V) -> seq<(NK, NV)>, broken: bool): (r: Lazy<(NK, NV)>)
    ensures !broken ==> r.items == Expand(l.items, fn) && r.fail == l.fail
    ensures broken ==> r.items == [] && (r.fail.Some? ==> l.items == [] && r.fail == l.fail)
  {
    if !broken then Lazy(Expand(l.items, fn), l.fail)
    else if l.items == [] then Lazy([], l.fail)
    else Lazy([], None)
  }

  function FlatMap2<K, V, NK, NV>(s: Stream2<K, V>, fn: (K, V) -> seq<(NK, NV)>): (r: Stream2<NK, NV>)
    ensures r.Err() == s.Err() && r.wire == s.wire
    ensures forall c :: r.run(c) == Spread(s.run(c), fn, s.Err() != null && c.Some?)
    ensures Reportable(s) ==> Reportable(r)
  {
    Stream(c => Spread(s.run(c), fn, s.Err() != null && c.Some?), s.wire, s.held)
  }

  // ---------------------------------------------------------------- terminals

  /** Gathers every pair into a `Pair`; a set cell behind the pointer turns the result into that
      error and no pairs. */
  method Collect<K, V>(s: Stream2<K, V>) returns (pairs: seq<Pair<K, V>>, err: Option<Error>)
    modifies s.wire
    ensures var l := s.run(old(Check(s.wire)));
      && (s.wire != null ==> s.wire.value == After(l, old(s.wire.value)))
      && err == Check(s.Err())
      && (err.Some? ==> pairs == [])
      && (err.None? ==> |pairs| == |l.items|)
      && (err.None? ==> forall j :: 0 <= j < |l.items| ==> pairs[j] == Pair(l.items[j].0, l.items[j].1))
  {
    var l := s.run(Check(s.wire));
    pairs := [];
    var i := 0;
    while i < |l.items|
      invariant 0 <= i <= |l.items| && |pairs| == i
      invariant forall j :: 0 <= j < i ==> pairs[j] == Pair(l.items[j].0, l.items[j].1)
    {
      var (k, v) := l.items[i];
      pairs := pairs + [Pair(k, v)];
      i := i + 1;
    }
    Trip(l, s.wire);
    err := Check(s.Err());
    if err.Some? {
      pairs := [];
    }
  }

  method Count<K, V>(s: Stream2<K, V>) returns (n: int, err: Option<Error>)
    modifies s.wire
    ensures var l := s.run(old(Check(s.wire)));
      && (s.wire != null ==> s.wire.value == After(l, old(s.wire.value)))
      && err == Check(s.Err())
      && n == if err.Some? then 0 else |l.items|
  {
    var l := s.run(Check(s.wire));
    n := 0;
    var i := 0;
    while i < |l.items|
      invariant 0 <= i <= |l.items| && n == i
    {
      n := n + 1;
      i := i + 1;
    }
    Trip(l, s.wire);
    err := Check(s.Err());
    if err.Some? {
      n := 0;
    }
  }

  const EmptyReduce := Error("cannot reduce empty stream")

  /** Folds the pairs from the front, the first pair seeding the accumulator. */
  function Fold<K, V>(ps: seq<(K, V)>, fn: (K, V, K, V) -> (K, V)): (K, V)
    requires ps != []
  {
    if |ps| == 1 then ps[0]
    else var acc := Fold(ps[..|ps| - 1], fn); fn(acc.0, acc.1, ps[|ps| - 1].0, ps[|ps| - 1].1)
  }

  function Combine<K, V>(fn: (K, V, K, V) -> (K, V), a: (K, V), b: (K, V)): (K, V)
  {
    fn(a.0, a.1, b.0, b.1)
  }

  /** With an associative combining function, reducing a concatenation combines the reductions
      of its parts: a reduction can be split anywhere. */
  lemma {:induction false} FoldSplit<K, V>(xs: seq<(K, V)>, ys: seq<(K, V)>, fn: (K, V, K, V) -> (K, V))
    requires forall a, b, c :: Combine(fn, Combine(fn, a, b), c) == Combine(fn, a, Combine(fn, b, c))
    requires xs != [] && ys != []
    ensures Fold(xs + ys, fn) == Combine(fn, Fold(xs, fn), Fold(ys, fn))
    decreases |ys|
  {
    var zs := xs + ys;
    var n := |zs| - 1;
    if |ys| == 1 {
      assert zs[..n] == xs;
    } else {
      var ys' := ys[..|ys| - 1];
      var y := ys[|ys| - 1];
      assert zs[..n] == xs + ys' && zs[n] == y;
      FoldSplit(xs, ys', fn);
      assert Fold(zs, fn) == Combine(fn, Combine(fn, Fold(xs, fn), Fold(ys', fn)), y);
      assert Fold(ys, fn) == Combine(fn, Fold(ys', fn), y);
    }
  }

  /** What `Reduce` returns, from what the upstream yields and the error behind the pointer when
      the run starts: a set cell stops it at the first pair, with zero values; an empty stream is
      an error; otherwise the fold, and no error. */
  function Reduced<K, V>(l: Lazy<(K, V)>, pending: Option<Error>, fn: (K, V, K, V) -> (K, V), zeroK: K, zeroV: V)
    : (r: (K, V, Option<Error>))
    ensures r.2.None? <==> l.items != [] && pending.None?
    ensures r.2.None? ==> (r.0, r.1) == Fold(l.items, fn)
    ensures r.2.Some? ==> r.0 == zeroK && r.1 == zeroV && r.2 == (if l.items == [] then Some(EmptyReduce) else pending)
  {
    if pending.Some? && l.items != [] then (zeroK, zeroV, pending)
    else if l.items == [] then (zeroK, zeroV, Some(EmptyReduce))
    else var acc := Fold(l.items, fn); (acc.0, acc.1, None)
  }

  /** `Reduce` reads the cell before every pair, so it stops at the first pair when the cell is
      set; it checks nothing after the loop. */
  method Reduce<K, V>(s: Stream2<K, V>, fn: (K, V, K, V) -> (K, V), zeroK: K, zeroV: V)
    returns (k: K, v: V, err: Option<Error>)
    modifies s.wire
    ensures var l := s.run(old(Check(s.wire)));
      var pending := old(Check(s.Err()));
      && (k, v, err) == Reduced(l, pending, fn, zeroK, zeroV)
      && (s.wire != null ==>
            s.wire.value == if pending.Some? && l.items != [] then old(s.wire.value) else After(l, old(s.wire.value)))
  {
    var l := s.run(Check(s.wire));
    k, v := zeroK, zeroV;
    var first := true;
    var i := 0;
    while i < |l.items|
      invariant 0 <= i <= |l.items|
      invariant first <==> i == 0
      invariant i == 0 ==> k == zeroK && v == zeroV
      invariant i > 0 ==> (k, v) == Fold(l.items[..i], fn) && Check(s.Err()).None?
      invariant s.wire != null ==> s.wire.value == old(s.wire.value)
    {
      var e := Check(s.Err());
      if e.Some? {
        return k, v, e;
      }
      var (pk, pv) := l.items[i];
      assert l.items[..i + 1][..i] == l.items[..i];
      if first {
        k, v := pk, pv;
        first := false;
        i := i + 1;
        continue;
      }
      var acc := fn(k, v, pk, pv);
      k, v := acc.0, acc.1;
      i := i + 1;
    }
    assert l.items[..i] == l.items;
    Trip(l, s.wire);
    if first {
      return zeroK, zeroV, Some(EmptyReduce);
    }
    err := None;
  }

  /** `Reduce` as written reports success over an upstream that yields a pair and then fails: the
      failure is written into the cell after the last check. */
  lemma ReduceMissesLateFailure<K, V>(p: (K, V), e: Error, fn: (K, V, K, V) -> (K, V), zeroK: K, zeroV: V)
    ensures var l := Lazy([p], Some(e));
      && After(l, None) == Some(e)
      && Reduced(l, None, fn, zeroK, zeroV) == (p.0, p.1, None)
  {
  }

  /** `Reduce` as evidently intended: after the loop it reads the cell once more, so a failure
      that ended the upstream is returned instead of a fold of partial data. */
  method ReduceChecked<K, V>(s: Stream2<K, V>, fn: (K, V, K, V) -> (K, V), zeroK: K, zeroV: V)
    returns (k: K, v: V, err: Option<Error>)
    modifies s.wire
    ensures var l := s.run(old(Check(s.wire)));
      var pending := old(Check(s.Err()));
      && (Reportable(s) && l.fail.Some? ==> err.Some?)
      && (err.None? ==> (k, v, err) == Reduced(l, pending, fn, zeroK, zeroV))
      && (err.Some? ==> k == zeroK && v == zeroV)
  {
    k, v, err := Reduce(s, fn, zeroK, zeroV);
    var e := Check(s.Err());
    if err.None? && e.Some? {
      return zeroK, zeroV, e;
    }
  }
}
