/** stream: lazy pipelines over Go push iterators whose stages share one error cell, the
    "live wire".

    A stage's iterator is modelled by what it does when it is driven to its end: the items it
    yields, in order (`Lazy.items`), and the error, if any, that a fallible stage writes into the
    cell just before it stops (`Lazy.fail`). A consumer that refuses an item stops the iterator
    there, before any such write. A circuit breaker reads the cell, so an iterator is a function
    of the cell's value when a run starts; during a run the cell changes only by the write that
    ends it. Building a stage runs nothing: stages are functions, and the terminal operations,
    which drive the iterator, are methods. */
module Streams {
  import opened Iteration

  datatype Error = Error(msg: string)

  /** What a fallible function returns: a value, or a non-nil error. */
  datatype Result<T> = Success(value: T) | Failure(error: Error)

  /** The `error` variable a pipeline's `*error` pointers point to. */
  class Cell {
    var value: Option<Error>

    constructor ()
      ensures value == None
    {
      value := None;
    }
  }

  /** What an iterator yields when driven to its end, and the error it then writes, if any. */
  datatype Lazy<T> = Lazy(items: seq<T>, fail: Option<Error>)

  /** A stream: its iterator, as a function of the cell's value when a run starts; the cell that
      fallible stages upstream write (nil if there is none); and whether the stage still holds a
      pointer to it. Every stage either passes its upstream's pointer on or builds its result
      without one, so a stage's pointer, when it has one, is the wire. */
  datatype Stream<T> = Stream(run: Option<Error> -> Lazy<T>, wire: Cell?, held: bool)
  {
    /** The stage's `err` pointer. */
    function Err(): Cell?
    {
      if held then wire else null
    }
  }

  /** The error a pointer reports: none for a nil pointer or an unset cell. */
  function Check(p: Cell?): (r: Option<Error>)
    reads p
    ensures r.Some? <==> p != null && p.value.Some?
    ensures r.Some? ==> r == p.value
  {
    if p == null then None else p.value
  }

  /** The cell's value after a run that reached its end, from its value `before`. */
  function After<T>(l: Lazy<T>, before: Option<Error>): Option<Error>
  {
    if l.fail.Some? then l.fail else before
  }

  /** The end of a run: the failure, if any, is written into the wire. */
  method Trip<T>(l: Lazy<T>, wire: Cell?)
    modifies wire
    ensures wire != null ==> wire.value == After(l, old(wire.value))
  {
    if l.fail.Some? && wire != null {
      wire.value := l.fail;
    }
  }

  /** Every failure of the stream can be reported through its own pointer. */
  ghost predicate Reportable<T>(s: Stream<T>)
  {
    forall c :: s.run(c).fail.Some? ==> s.Err() != null
  }

  // ---------------------------------------------------------------- stream.go

  function FromSeq<T>(items: seq<T>): (r: Stream<T>)
    ensures r.Err() == null && r.wire == null
    ensures forall c :: r.run(c) == Lazy(items, None)
    ensures Reportable(r)
  {
    Stream(c => Lazy(items, None), null, false)
  }

  /** The raw iterator. */
  function Seq<T>(s: Stream<T>): (r: Option<Error> -> Lazy<T>)
    ensures forall c :: r(c) == s.run(c)
  {
    s.run
  }

  /** The items of xs that `keep` accepts, in order. */
  function Filtered<T>(xs: seq<T>, keep: T -> bool): (r: seq<T>)
    ensures |r| <= |xs|
    ensures forall i :: 0 <= i < |r| ==> r[i] in xs && keep(r[i])
    ensures forall i :: 0 <= i < |xs| && keep(xs[i]) ==> xs[i] in r
  {
    if xs == [] then []
    else (if keep(xs[0]) then [xs[0]] else []) + Filtered(xs[1..], keep)
  }

  /** Filtering keeps the order: it works piece by piece. */
  lemma {:induction false} FilteredConcat<T>(xs: seq<T>, ys: seq<T>, keep: T -> bool)
    ensures Filtered(xs + ys, keep) == Filtered(xs, keep) + Filtered(ys, keep)
  {
    if xs != [] {
      assert (xs + ys)[0] == xs[0] && (xs + ys)[1..] == xs[1..] + ys;
      FilteredConcat(xs[1..], ys, keep);
    } else {
      assert xs + ys == ys;
    }
  }

  /** `Filter` as written: it yields what `keep` accepts but builds its result without the
      error pointer. */
  function Filter<T>(s: Stream<T>, keep: T -> bool): (r: Stream<T>)
    ensures r.Err() == null && r.wire == s.wire
    ensures forall c :: r.run(c) == Lazy(Filtered(s.run(c).items, keep), s.run(c).fail)
  {
    Stream(c => Lazy(Filtered(s.run(c).items, keep), s.run(c).fail), s.wire, false)
  }

  function Cap(n: int): nat
  {
    if n < 0 then 0 else n
  }

  /** `Take(n)`'s loop from the point where `count` items have gone out: it pulls an item, and
      only then compares `count` with n; an upstream driven to its end trips its failure. */
  function TakeFrom<T>(xs: seq<T>, fail: Option<Error>, count: int, n: int): (r: Lazy<T>)
    decreases |xs|
  {
    if xs == [] then Lazy([], fail)
    else if count >= n then Lazy([], None)
    else var t := TakeFrom(xs[1..], fail, count + 1, n); Lazy([xs[0]] + t.items, t.fail)
  }

  /** `Take(n)` passes on the first n items, or everything when the upstream has no more; it
      drives the upstream to its end, and so trips its failure, exactly when the upstream has at
      most n items: with exactly n it pulls one more, and the upstream fails instead. */
  lemma {:induction false} TakeFromFirst<T>(xs: seq<T>, fail: Option<Error>, count: int, n: int)
    ensures var m := Cap(n - count);
      TakeFrom(xs, fail, count, n) == if |xs| > m then Lazy(xs[..m], None) else Lazy(xs, fail)
  {
    if xs != [] && count < n {
      TakeFromFirst(xs[1..], fail, count + 1, n);
      var m := Cap(n - count);
      assert Cap(n - (count + 1)) == m - 1;
      if |xs| > m {
        assert [xs[0]] + xs[1..][..m - 1] == xs[..m];
      } else {
        assert [xs[0]] + xs[1..] == xs;
      }
    }
  }

  function Taken<T>(l: Lazy<T>, n: int): (r: Lazy<T>)
    ensures |r.items| == if |l.items| < Cap(n) then |l.items| else Cap(n)
    ensures r.items == l.items[..|r.items|]
    ensures r.fail == if |l.items| <= Cap(n) then l.fail else None
  {
    TakeFromFirst(l.items, l.fail, 0, n);
    TakeFrom(l.items, l.fail, 0, n)
  }

  /** `Take` as written: at most n items, without the error pointer. */
  function Take<T>(s: Stream<T>, n: int): (r: Stream<T>)
    ensures r.Err() == null && r.wire == s.wire
    ensures forall c :: r.run(c) == Taken(s.run(c), n)
  {
    Stream(c => Taken(s.run(c), n), s.wire, false)
  }

  /** `Take(n)` as evidently intended: it stops as soon as n items have gone out, so an upstream
      failure after them is never reached. */
  function TakenExactly<T>(l: Lazy<T>, n: int): (r: Lazy<T>)
    ensures |r.items| == if |l.items| < Cap(n) then |l.items| else Cap(n)
    ensures r.items == l.items[..|r.items|]
    ensures r.fail.Some? ==> |r.items| < Cap(n) && r.fail == l.fail
  {
    if |l.items| >= Cap(n) then Lazy(l.items[..Cap(n)], None) else l
  }

  /** As written, `Take(1)` over an upstream that yields one item and then fails trips the
      failure, although the one item it wanted arrived. */
  lemma TakeTripsAfterEnough<T>(x: T, e: Error)
    ensures Taken(Lazy([x], Some(e)), 1) == Lazy([x], Some(e))
    ensures TakenExactly(Lazy([x], Some(e)), 1) == Lazy([x], None)
  {
  }

  /** Filter and Take as written lose a failure that their upstream reports: the failure still
      trips the wire, but the result has no pointer to read it through. */
  lemma DroppedPointerHidesFailure<T>(w: Cell, e: Error, keep: T -> bool, n: int)
    ensures var s := Stream((c: Option<Error>) => Lazy([], Some(e)), w, true);
      && Reportable(s)
      && Filter(s, keep).run(None).fail == Some(e) && !Reportable(Filter(s, keep))
      && Take(s, n).run(None).fail == Some(e) && !Reportable(Take(s, n))
  {
    var s := Stream((c: Option<Error>) => Lazy([], Some(e)), w, true);
    assert Filter(s, keep).run(None).fail == Some(e);
    assert Take(s, n).run(None).fail == Some(e);
  }

  /** Filter as evidently intended: it passes the error pointer on, as `Map` does. */
  function FilterReporting<T>(s: Stream<T>, keep: T -> bool): (r: Stream<T>)
    ensures r.Err() == s.Err() && r.wire == s.wire
    ensures forall c :: r.run(c).items == Filtered(s.run(c).items, keep)
    ensures Reportable(s) ==> Reportable(r)
  {
    Stream(c => Lazy(Filtered(s.run(c).items, keep), s.run(c).fail), s.wire, s.held)
  }

  /** Take as evidently intended: it passes the error pointer on and stops after n items. */
  function TakeReporting<T>(s: Stream<T>, n: int): (r: Stream<T>)
    ensures r.Err() == s.Err() && r.wire == s.wire
    ensures forall c :: r.run(c) == TakenExactly(s.run(c), n)
    ensures Reportable(s) ==> Reportable(r)
  {
    Stream(c => TakenExactly(s.run(c), n), s.wire, s.held)
  }

  /** Ranging over `Seq()` with a loop body that may break: the items the body sees, as far as
      it takes them; the failure trips only if the body never broke. */
  method Range<T>(s: Stream<T>, accept: seq<T> -> bool) returns (out: seq<T>)
    modifies s.wire
    ensures var l := s.run(old(Check(s.wire)));
      && out == Consume(l.items, accept)
      && (s.wire != null ==>
            s.wire.value == (if forall j :: 0 < j <= |l.items| ==> accept(l.items[..j])
                             then After(l, old(s.wire.value)) else old(s.wire.value)))
  {
    var l := s.run(Check(s.wire));
    out := [];
    var i := 0;
    while i < |l.items|
      invariant 0 <= i <= |l.items| && out == l.items[..i]
      invariant forall j :: 0 < j <= i ==> accept(l.items[..j])
      invariant StopAt(l.items, accept, 0) == StopAt(l.items, accept, i)
      invariant s.wire != null ==> s.wire.value == old(s.wire.value)
    {
      ConsumeStep(l.items, accept, out, l.items[i], l.items[i + 1..]);
      assert l.items[..i + 1] == out + [l.items[i]];
      out := out + [l.items[i]];
      if !accept(out) {
        assert !accept(l.items[..i + 1]);
        return;
      }
      i := i + 1;
    }
    ConsumeEnd(l.items, accept);
    Trip(l, s.wire);
  }

  /** Gathers every item; a set cell behind the stream's own pointer turns the result into that
      error and no items. */
  method Collect<T>(s: Stream<T>) returns (items: seq<T>, err: Option<Error>)
    modifies s.wire
    ensures var l := s.run(old(Check(s.wire)));
      && (s.wire != null ==> s.wire.value == After(l, old(s.wire.value)))
      && err == Check(s.Err())
      && items == if err.Some? then [] else l.items
  {
    var l := s.run(Check(s.wire));
    items := [];
    var i := 0;
    while i < |l.items|
      invariant 0 <= i <= |l.items| && items == l.items[..i]
    {
      items := items + [l.items[i]];
      i := i + 1;
    }
    Trip(l, s.wire);
    err := Check(s.Err());
    if err.Some? {
      return [], err;
    }
    assert items == l.items;
  }

  // ---------------------------------------------------------------- stream_map.go

  function Map<T, R>(s: Stream<T>, fn: T -> R): (r: Stream<R>)
    ensures r.Err() == s.Err() && r.wire == s.wire
    ensures forall c :: r.run(c).fail == s.run(c).fail
    ensures forall c :: |r.run(c).items| == |s.run(c).items|
    ensures forall c, j :: 0 <= j < |s.run(c).items| ==> r.run(c).items[j] == fn(s.run(c).items[j])
    ensures Reportable(s) ==> Reportable(r)
  {
    Stream(c => Lazy(Mapped(fn, s.run(c).items), s.run(c).fail), s.wire, s.held)
  }

  /** `fn` applied in order up to its first failure: the results before it, and its error. */
  function Attempt<T, R>(xs: seq<T>, fn: T -> Result<R>): (r: Lazy<R>)
    ensures |r.items| <= |xs|
    ensures forall j :: 0 <= j < |r.items| ==> fn(xs[j]) == Success(r.items[j])
    ensures r.fail.None? <==> |r.items| == |xs|
    ensures r.fail.Some? ==> fn(xs[|r.items|]) == Failure(r.fail.value)
  {
    if xs == [] then Lazy([], None)
    else match fn(xs[0])
      case Failure(e) => Lazy([], Some(e))
      case Success(y) => var t := Attempt(xs[1..], fn); Lazy([y] + t.items, t.fail)
  }

  /** A fallible stage: its own failure ends the run, and without one the upstream's stands. */
  function Fallible<T, R>(l: Lazy<T>, fn: T -> Result<R>): (r: Lazy<R>)
    ensures |r.items| <= |l.items|
    ensures forall j :: 0 <= j < |r.items| ==> fn(l.items[j]) == Success(r.items[j])
    ensures |r.items| == |l.items| ==> r.fail == l.fail
    ensures |r.items| < |l.items| ==> r.fail.Some? && fn(l.items[|r.items|]) == Failure(r.fail.value)
  {
    var a := Attempt(l.items, fn);
    if a.fail.Some? then a else Lazy(a.items, l.fail)
  }

  /** No run of the stream reaches an item on which `fn` fails. */
  ghost predicate NeverFails<T, R>(s: Stream<T>, fn: T -> Result<R>)
  {
    forall c :: Attempt(s.run(c).items, fn).fail.None?
  }

  /** `MapErr` writes a failure through its upstream's pointer without a nil check: with a nil
      pointer, a run that reaches a failing item dereferences nil, so such a run is excluded. With
      a pointer, every failure of the result is reported. */
  function MapErr<T>(s: Stream<T>, fn: T -> Result<T>): (r: Stream<T>)
    requires s.Err() != null || NeverFails(s, fn)
    ensures r.Err() == s.Err() && r.wire == s.wire
    ensures forall c :: r.run(c) == Fallible(s.run(c), fn)
    ensures s.Err() != null ==> Reportable(r)
    ensures Reportable(s) ==> Reportable(r)
  {
    Stream(c => Fallible(s.run(c), fn), s.wire, s.held)
  }

  /** A stream built by `FromSeq` has no pointer, so `MapErr` over it with a function that fails
      on one of its items dereferences nil. */
  lemma MapErrOverFromSeqPanics<T>(x: T, e: Error)
    ensures !(FromSeq([x]).Err() != null || NeverFails(FromSeq([x]), (y: T) => Result<T>.Failure(e)))
  {
    var fn := (y: T) => Result<T>.Failure(e);
    assert Attempt(FromSeq([x]).run(None).items, fn).fail.Some?;
  }

  /** `FromSeq` as evidently intended: like `FromSeq2`, it gives the stream a cell of its own, so
      that any fallible stage over it can report. */
  method FromSeqWired<T>(items: seq<T>) returns (r: Stream<T>)
    ensures r.Err() != null && fresh(r.wire) && r.wire.value == None
    ensures forall c :: r.run(c) == Lazy(items, None)
    ensures Reportable(r)
    ensures forall fn: T -> Result<T> :: Reportable(MapErr(r, fn))
  {
    var cell := new Cell();
    r := Stream(c => Lazy(items, None), cell, true);
  }

  // ---------------------------------------------------------------- stream_terminal.go

  const EmptyLast := Error("cannot get last element of empty stream")

  /** `ForEach` (which this model does not show) drives the stream to its end and then reports
      the error behind the stream's own pointer; `Last` keeps the last item it saw. */
  method Last<T>(s: Stream<T>, zero: T) returns (last: T, err: Option<Error>)
    modifies s.wire
    ensures var l := s.run(old(Check(s.wire)));
      && (s.wire != null ==> s.wire.value == After(l, old(s.wire.value)))
      && last == (if l.items == [] then zero else l.items[|l.items| - 1])
      && err == if Check(s.Err()).Some? then Check(s.Err()) else if l.items == [] then Some(EmptyLast) else None
  {
    var l := s.run(Check(s.wire));
    last := zero;
    var found := false;
    var i := 0;
    while i < |l.items|
      invariant 0 <= i <= |l.items|
      invariant found <==> i > 0
      invariant last == if i == 0 then zero else l.items[i - 1]
    {
      last := l.items[i];
      found := true;
      i := i + 1;
    }
    Trip(l, s.wire);
    err := Check(s.Err());
    if err.Some? {
      return;
    }
    if !found {
      return zero, Some(EmptyLast);
    }
  }

  datatype Entry<K, V> = Entry(key: K, value: V)

  /** The map built by storing every entry in order. */
  function Assoc<K, V>(es: seq<Entry<K, V>>): map<K, V>
  {
    if es == [] then map[] else Assoc(es[..|es| - 1])[es[|es| - 1].key := es[|es| - 1].value]
  }

  /** A key is in the map exactly when some entry has it, and then it holds the value of the last
      such entry: later entries overwrite earlier ones. */
  lemma {:induction false} AssocLastWins<K, V>(es: seq<Entry<K, V>>, k: K)
    ensures k in Assoc(es) <==> exists i :: 0 <= i < |es| && es[i].key == k
    ensures forall i :: 0 <= i < |es| && es[i].key == k && (forall j :: i < j < |es| ==> es[j].key != k) ==>
      k in Assoc(es) && Assoc(es)[k] == es[i].value
  {
    if es != [] {
      var n := |es| - 1;
      var init := es[..n];
      AssocLastWins(init, k);
      if es[n].key != k {
        forall i | 0 <= i < n && es[i].key == k && (forall j :: i < j < |es| ==> es[j].key != k)
          ensures k in Assoc(es) && Assoc(es)[k] == es[i].value
        {
          assert init[i] == es[i];
          assert forall j :: i < j < |init| ==> init[j].key != k;
        }
        if exists i :: 0 <= i < |es| && es[i].key == k {
          var i :| 0 <= i < |es| && es[i].key == k;
          assert init[i].key == k;
        }
        if exists i :: 0 <= i < |init| && init[i].key == k {
          var i :| 0 <= i < |init| && init[i].key == k;
          assert es[i].key == k;
        }
      }
    }
  }

  method ToMap<K, V>(s: Stream<Entry<K, V>>) returns (res: map<K, V>, err: Option<Error>)
    modifies s.wire
    ensures var l := s.run(old(Check(s.wire)));
      && (s.wire != null ==> s.wire.value == After(l, old(s.wire.value)))
      && res == Assoc(l.items)
      && err == Check(s.Err())
  {
    var l := s.run(Check(s.wire));
    res := map[];
    var i := 0;
    while i < |l.items|
      invariant 0 <= i <= |l.items| && res == Assoc(l.items[..i])
    {
      var e := l.items[i];
      assert l.items[..i + 1][..i] == l.items[..i];
      res := res[e.key := e.value];
      i := i + 1;
    }
    assert l.items[..i] == l.items;
    Trip(l, s.wire);
    err := Check(s.Err());
  }

  /** The items in key `k`'s group. */
  function HasKey<T, K(==)>(keyFn: T -> K, k: K): T -> bool
  {
    x => keyFn(x) == k
  }

  /** The groups built by appending every item, in order, to its key's list. */
  function Groups<T, K(==)>(xs: seq<T>, keyFn: T -> K): map<K, seq<T>>
  {
    if xs == [] then map[]
    else
      var g := Groups(xs[..|xs| - 1], keyFn);
      var x := xs[|xs| - 1];
      var k := keyFn(x);
      g[k := (if k in g then g[k] else []) + [x]]
  }

  /** Each key's group is exactly the items with that key, in stream order; a key has a group
      only if some item has it. */
  lemma {:induction false} GroupsFiltered<T, K>(xs: seq<T>, keyFn: T -> K, k: K)
    ensures var g := Groups(xs, keyFn);
      (if k in g then g[k] else []) == Filtered(xs, HasKey(keyFn, k)) && (k in g ==> g[k] != [])
  {
    if xs != [] {
      var n := |xs| - 1;
      var init := xs[..n];
      var x := xs[n];
      GroupsFiltered(init, keyFn, k);
      var before := Filtered(init, HasKey(keyFn, k));
      var g0 := Groups(init, keyFn);
      var g := Groups(xs, keyFn);
      assert g == g0[keyFn(x) := (if keyFn(x) in g0 then g0[keyFn(x)] else []) + [x]];
      FilteredLast(xs, HasKey(keyFn, k));
      if keyFn(x) == k {
        assert Filtered(xs, HasKey(keyFn, k)) == before + [x];
        assert k in g && g[k] == before + [x];
      } else {
        assert Filtered(xs, HasKey(keyFn, k)) == before;
        assert (k in g <==> k in g0) && (k in g ==> g[k] == g0[k]);
      }
    }
  }

  /** Filtering a non-empty sequence filters all but its last item, then that item. */
  lemma FilteredLast<T>(xs: seq<T>, keep: T -> bool)
    requires xs != []
    ensures Filtered(xs, keep) ==
      Filtered(xs[..|xs| - 1], keep) + if keep(xs[|xs| - 1]) then [xs[|xs| - 1]] else []
  {
    var n := |xs| - 1;
    assert xs == xs[..n] + [xs[n]];
    FilteredConcat(xs[..n], [xs[n]], keep);
    FilteredSingle(xs[n], keep);
  }

  lemma FilteredSingle<T>(x: T, keep: T -> bool)
    ensures Filtered([x], keep) == if keep(x) then [x] else []
  {
    assert [x][1..] == [];
  }

  method GroupBy<T, K(==)>(s: Stream<T>, keyFn: T -> K) returns (res: map<K, seq<T>>, err: Option<Error>)
    modifies s.wire
    ensures var l := s.run(old(Check(s.wire)));
      && (s.wire != null ==> s.wire.value == After(l, old(s.wire.value)))
      && res == Groups(l.items, keyFn)
      && err == Check(s.Err())
  {
    var l := s.run(Check(s.wire));
    res := map[];
    var i := 0;
    while i < |l.items|
      invariant 0 <= i <= |l.items| && res == Groups(l.items[..i], keyFn)
    {
      var v := l.items[i];
      assert l.items[..i + 1][..i] == l.items[..i];
      var key := keyFn(v);
      res := res[key := (if key in res then res[key] else []) + [v]];
      i := i + 1;
    }
    assert l.items[..i] == l.items;
    Trip(l, s.wire);
    err := Check(s.Err());
  }
}
