/** The Go push-iterator protocol (`iter.Seq`, `iter.Seq2`) as used throughout the library.

    An iterator offers its items one at a time to a `yield` callback and ends as soon as `yield`
    returns false. A consumer is modelled as a total function of everything it has received so
    far (which covers every deterministic consumer, e.g. "stop after N items"), and
    `Consume(items, accept)` is the prefix of `items` the consumer actually receives. */
module Iteration {

  datatype Option<T> = None | Some(value: T)

  /** How many of `items` a consumer receives when the iterator has already delivered the first
      `i` of them and every one of those was accepted. */
  function StopAt<T>(items: seq<T>, accept: seq<T> -> bool, i: nat): (n: nat)
    requires i <= |items|
    ensures i <= n <= |items|
    decreases |items| - i
  {
    if i == |items| then i
    else if !accept(items[..i + 1]) then i + 1
    else StopAt(items, accept, i + 1)
  }

  /** The items delivered to `accept`, in order: up to and including the first one refused. */
  function Consume<T>(items: seq<T>, accept: seq<T> -> bool): (out: seq<T>)
    ensures |out| <= |items| && out == items[..|out|]
  {
    items[..StopAt(items, accept, 0)]
  }

  /** Every delivery before the last was accepted, and the iteration stops early only because the
      consumer refused the last item it received. */
  lemma {:induction false} StopAtSound<T>(items: seq<T>, accept: seq<T> -> bool, i: nat)
    requires i <= |items|
    ensures var n := StopAt(items, accept, i);
      (forall j :: i < j < n ==> accept(items[..j])) && (n < |items| ==> i < n && !accept(items[..n]))
    decreases |items| - i
  {
    if i < |items| && accept(items[..i + 1]) {
      StopAtSound(items, accept, i + 1);
    }
  }

  lemma ConsumeSound<T>(items: seq<T>, accept: seq<T> -> bool)
    ensures var out := Consume(items, accept);
      (forall j :: 0 < j < |out| ==> accept(out[..j])) && (|out| < |items| ==> |out| > 0 && !accept(out))
  {
    var out := Consume(items, accept);
    StopAtSound(items, accept, 0);
    forall j | 0 < j < |out| ensures accept(out[..j]) {
      assert out[..j] == items[..j];
    }
  }

  /** When the consumer accepts everything, it receives everything. */
  lemma {:induction false} ConsumeAll<T>(items: seq<T>, accept: seq<T> -> bool, i: nat)
    requires i <= |items|
    requires forall j :: i < j <= |items| ==> accept(items[..j])
    ensures StopAt(items, accept, i) == |items|
    decreases |items| - i
  {
    if i < |items| {
      ConsumeAll(items, accept, i + 1);
    }
  }

  /** The consumer that never stops early, as in a plain `for ... range` loop without `break`. */
  function Everything<T>(received: seq<T>): bool { true }

  lemma ConsumeEverything<T>(items: seq<T>)
    ensures Consume(items, Everything) == items
  {
    ConsumeAll(items, Everything, 0);
  }

  function Reverse<T>(s: seq<T>): (r: seq<T>)
    ensures |r| == |s|
  {
    if s == [] then [] else Reverse(s[1..]) + [s[0]]
  }

  lemma {:induction false} ReverseAt<T>(s: seq<T>, k: nat)
    requires k < |s|
    ensures Reverse(s)[k] == s[|s| - 1 - k]
  {
    if k < |s| - 1 {
      ReverseAt(s[1..], k);
    }
  }

  lemma {:induction false} ReverseConcat<T>(a: seq<T>, b: seq<T>)
    ensures Reverse(a + b) == Reverse(b) + Reverse(a)
  {
    forall k | 0 <= k < |a| + |b| ensures Reverse(a + b)[k] == (Reverse(b) + Reverse(a))[k] {
      ReverseAt(a + b, k);
      if k < |b| { ReverseAt(b, k); } else { ReverseAt(a, k - |b|); }
    }
  }

  /** `f` applied to every item, in order. */
  function Mapped<A, B>(f: A -> B, xs: seq<A>): (r: seq<B>)
    ensures |r| == |xs|
  {
    seq(|xs|, i requires 0 <= i < |xs| => f(xs[i]))
  }

  lemma MappedConcat<A, B>(f: A -> B, xs: seq<A>, ys: seq<A>)
    ensures Mapped(f, xs + ys) == Mapped(f, xs) + Mapped(f, ys)
  {
  }

  /** One step of a traversal: when `out` is the part of `items` delivered so far (all of it
      accepted) and `x` comes next, delivering `x` either ends the traversal or keeps the invariant. */
  lemma ConsumeStep<T>(items: seq<T>, accept: seq<T> -> bool, out: seq<T>, x: T, rest: seq<T>)
    requires items == out + [x] + rest
    requires StopAt(items, accept, 0) == StopAt(items, accept, |out|)
    ensures !accept(out + [x]) ==> Consume(items, accept) == out + [x]
    ensures accept(out + [x]) ==> StopAt(items, accept, 0) == StopAt(items, accept, |out| + 1)
  {
    assert items[..|out| + 1] == out + [x];
  }

  lemma ConsumeEnd<T>(items: seq<T>, accept: seq<T> -> bool)
    requires StopAt(items, accept, 0) == StopAt(items, accept, |items|)
    ensures Consume(items, accept) == items
  {
  }

  /** Handing a consumer one more item keeps every earlier prefix accepted, and the whole when
      the consumer accepts it. */
  lemma PrefixesAccepted<T>(accept: seq<T> -> bool, prev: seq<T>, x: T)
    requires forall j :: 0 < j <= |prev| ==> accept(prev[..j])
    ensures forall j :: 0 < j <= |prev| ==> accept((prev + [x])[..j])
    ensures accept(prev + [x]) ==> forall j :: 0 < j <= |prev| + 1 ==> accept((prev + [x])[..j])
  {
    assert forall j :: 0 < j <= |prev| ==> (prev + [x])[..j] == prev[..j];
    assert (prev + [x])[..|prev| + 1] == prev + [x];
  }

  /** Writing at or past position j leaves the first j items alone. */
  lemma UpdatePastPrefix<T>(s: seq<T>, j: nat, k: nat, x: T)
    requires j <= k < |s|
    ensures s[k := x][..j] == s[..j] && |s[k := x]| == |s|
  {
  }

  /** Everything a row of pull iterators still holds, iterator by iterator; `rest[i]` is what
      iterator i has not yet handed out. */
  function Flatten<T>(rest: seq<seq<T>>): (r: seq<T>)
  {
    if rest == [] then [] else rest[0] + Flatten(rest[1..])
  }

  lemma {:induction false} FlattenConcat<T>(a: seq<seq<T>>, b: seq<seq<T>>)
    ensures Flatten(a + b) == Flatten(a) + Flatten(b)
  {
    if a != [] {
      assert (a + b)[1..] == a[1..] + b;
      FlattenConcat(a[1..], b);
    } else {
      assert a + b == b;
    }
  }

  /** An item is still to come exactly when one of the iterators holds it. */
  lemma {:induction false} FlattenMember<T>(rest: seq<seq<T>>, x: T)
    ensures x in Flatten(rest) <==> exists i :: 0 <= i < |rest| && x in rest[i]
  {
    if rest != [] {
      FlattenMember(rest[1..], x);
      if x in Flatten(rest[1..]) {
        var i :| 0 <= i < |rest[1..]| && x in rest[1..][i];
        assert x in rest[i + 1];
      }
      if exists i :: 0 <= i < |rest| && x in rest[i] {
        var i :| 0 <= i < |rest| && x in rest[i];
        if i > 0 { assert x in rest[1..][i - 1]; }
      }
    }
  }

  /** Pulling one item from iterator b removes exactly that item from what is still to come. */
  lemma {:induction false} FlattenAdvance<T>(rest: seq<seq<T>>, b: nat)
    requires b < |rest| && rest[b] != []
    ensures multiset(Flatten(rest)) == multiset(Flatten(rest[b := rest[b][1..]])) + multiset{rest[b][0]}
    ensures |Flatten(rest)| == |Flatten(rest[b := rest[b][1..]])| + 1
  {
    var rest' := rest[b := rest[b][1..]];
    if b == 0 {
      assert rest'[1..] == rest[1..];
      assert rest[0] == [rest[0][0]] + rest[0][1..];
    } else {
      assert rest'[1..] == rest[1..][b - 1 := rest[1..][b - 1][1..]];
      FlattenAdvance(rest[1..], b - 1);
    }
  }

  /** Nothing is still to come exactly when every iterator is exhausted. */
  lemma {:induction false} FlattenEmpty<T>(rest: seq<seq<T>>)
    ensures Flatten(rest) == [] <==> forall i :: 0 <= i < |rest| ==> rest[i] == []
  {
    if rest != [] {
      FlattenEmpty(rest[1..]);
      if Flatten(rest) == [] {
        forall i | 0 <= i < |rest| ensures rest[i] == [] {
          if i > 0 { assert rest[i] == rest[1..][i - 1]; }
        }
      }
    }
  }
}
