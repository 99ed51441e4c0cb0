/** heap: a binary min- or max-heap of (priority, value) items over a growable slice.

    Priorities are integers. `data` is the slice's live part; `spare` stands for the slots of the
    backing array past its length, which Go code can still reach by reslicing. */
module Heap {
  import opened Iteration

  datatype Item<T> = Item(value: T, priority: int)

  /** Go's integer division, which truncates toward zero (so (0 - 1) / 2 is 0, not -1). */
  function GoDiv(a: int, b: int): (q: int)
    requires b > 0
    ensures a >= 0 ==> q == a / b
    ensures -b < a < 0 ==> q == 0
  {
    if a >= 0 then a / b else -((-a) / b)
  }

  /** The position of a node's parent, for a node that is not the root. */
  function ParentOf(c: nat): nat
    requires c > 0
  {
    (c - 1) / 2
  }

  /** `a` goes above `b`: a strictly smaller priority in a min-heap, a strictly larger one in a
      max-heap. */
  predicate Less<T>(min: bool, a: Item<T>, b: Item<T>)
  {
    if min then a.priority < b.priority else a.priority > b.priority
  }

  /** Node c does not belong above its parent. */
  ghost predicate Ok<T>(min: bool, s: seq<Item<T>>, c: nat)
    requires 0 < c < |s|
  {
    !Less(min, s[c], s[ParentOf(c)])
  }

  /** The heap property on the first n items. */
  ghost predicate Ordered<T>(min: bool, s: seq<Item<T>>, n: nat)
    requires n <= |s|
  {
    forall c :: 0 < c < n ==> Ok(min, s, c)
  }

  /** The root of a heap goes above nothing: it is a minimum (a maximum in a max-heap). */
  lemma {:induction false} RootFirst<T>(min: bool, s: seq<Item<T>>, n: nat, k: nat)
    requires n <= |s| && Ordered(min, s, n) && k < n
    ensures !Less(min, s[k], s[0])
  {
    if k > 0 {
      assert Ok(min, s, k);
      RootFirst(min, s, n, ParentOf(k));
    }
  }

  /** Sift-up's loop invariant: only node j may sit above its place, and j's children do not
      belong above j's parent. */
  ghost predicate UpInv<T>(min: bool, s: seq<Item<T>>, j: nat)
  {
    && j < |s|
    && (forall c :: 0 < c < |s| && c != j ==> Ok(min, s, c))
    && (forall c :: 0 < c < |s| && ParentOf(c) == j && j > 0 ==> !Less(min, s[c], s[ParentOf(j)]))
  }

  lemma UpStep<T>(min: bool, s: seq<Item<T>>, j: nat)
    requires UpInv(min, s, j) && j > 0 && Less(min, s[j], s[ParentOf(j)])
    ensures var p := ParentOf(j); UpInv(min, s[p := s[j]][j := s[p]], p)
  {
    var p := ParentOf(j);
    var s' := s[p := s[j]][j := s[p]];
    forall c | 0 < c < |s'| && c != p ensures Ok(min, s', c) {
      if c != j && ParentOf(c) != p && ParentOf(c) != j {
        assert Ok(min, s, c);
      } else if ParentOf(c) == p && c != j {
        assert Ok(min, s, c);
      } else if ParentOf(c) == j {
        assert !Less(min, s[c], s[p]);
      }
    }
    forall c | 0 < c < |s'| && ParentOf(c) == p && p > 0 ensures !Less(min, s'[c], s'[ParentOf(p)]) {
      assert Ok(min, s, p);
      if c != j {
        assert Ok(min, s, c);
      }
    }
  }

  /** Sift-down's loop invariant over the first n items, started at i0 and now at i: every other
      node is in place except i's children, i's children do not belong above i's parent, and
      once the walk has left i0, i0 is in place too. */
  ghost predicate DownInv<T>(min: bool, s: seq<Item<T>>, n: nat, i0: nat, i: nat)
    requires n <= |s|
  {
    && i0 <= i
    && (i > i0 ==> i < n)
    && (forall c :: 0 < c < n && c != i0 && ParentOf(c) != i ==> Ok(min, s, c))
    && (i > i0 && 0 < i0 ==> Ok(min, s, i0))
    && (forall c :: 0 < c < n && ParentOf(c) == i && i > 0 ==> !Less(min, s[c], s[ParentOf(i)]))
  }

  /** Swapping i with j, its child that belongs highest, when j belongs above i. */
  lemma DownStep<T>(min: bool, s: seq<Item<T>>, n: nat, i0: nat, i: nat, j: nat)
    requires n <= |s| && DownInv(min, s, n, i0, i)
    requires 0 < j < n && ParentOf(j) == i && Less(min, s[j], s[i])
    requires forall c :: 0 < c < n && ParentOf(c) == i ==> !Less(min, s[c], s[j])
    ensures DownInv(min, s[i := s[j]][j := s[i]], n, i0, j)
  {
    var s' := s[i := s[j]][j := s[i]];
    forall c | 0 < c < n && c != i0 && ParentOf(c) != j ensures Ok(min, s', c) {
      if c == j {
      } else if ParentOf(c) == i {
        assert !Less(min, s[c], s[j]);
      } else if c == i {
        assert !Less(min, s[j], s[ParentOf(i)]);
      } else {
        assert Ok(min, s, c);
      }
    }
    if 0 < i0 {
      if i == i0 {
        assert !Less(min, s[j], s[ParentOf(i)]);
      } else {
        assert Ok(min, s, i0);
      }
    }
    forall c | 0 < c < n && ParentOf(c) == j ensures !Less(min, s'[c], s'[ParentOf(j)]) {
      assert Ok(min, s, c);
    }
  }

  /** What sift-down leaves: every node but i0 in place on the first n items, and all of them
      once it moved anything. */
  lemma DownDone<T>(min: bool, s: seq<Item<T>>, n: nat, i0: nat, i: nat)
    requires n <= |s| && DownInv(min, s, n, i0, i)
    requires forall c :: 0 < c < n && ParentOf(c) == i ==> Ok(min, s, c)
    ensures forall c :: 0 < c < n && c != i0 ==> Ok(min, s, c)
    ensures i > i0 ==> Ordered(min, s, n)
  {
  }

  /** The heap property depends only on the items it covers. */
  lemma OrderedKeep<T>(min: bool, s: seq<Item<T>>, t: seq<Item<T>>, n: nat)
    requires n <= |s| && n <= |t| && s[..n] == t[..n] && Ordered(min, s, n)
    ensures Ordered(min, t, n)
  {
    forall c | 0 < c < n ensures Ok(min, t, c) {
      assert Ok(min, s, c);
      assert s[c] == t[c] && s[ParentOf(c)] == t[ParentOf(c)];
    }
  }

  /** Appending to a heap leaves only the new last node to sift up. */
  lemma AppendReady<T>(min: bool, s: seq<Item<T>>, x: Item<T>)
    requires Ordered(min, s, |s|)
    ensures UpInv(min, s + [x], |s|)
  {
    var t := s + [x];
    forall c | 0 < c < |t| && c != |s| ensures Ok(min, t, c) {
      assert Ok(min, s, c);
    }
  }

  /** Overwriting the root of a heap leaves only the root to sift down. */
  lemma RootReady<T>(min: bool, s: seq<Item<T>>, x: Item<T>)
    requires Ordered(min, s, |s|) && |s| > 0
    ensures DownInv(min, s[0 := x], |s|, 0, 0)
  {
    var t := s[0 := x];
    forall c | 0 < c < |s| && c != 0 && ParentOf(c) != 0 ensures Ok(min, t, c) {
      assert Ok(min, s, c);
    }
  }

  /** Swapping the root with the last node and dropping the last leaves only the root to sift
      down among the others. */
  lemma LastToRootReady<T>(min: bool, s: seq<Item<T>>)
    requires Ordered(min, s, |s|) && |s| > 0
    ensures var n := |s| - 1; DownInv(min, s[0 := s[n]][n := s[0]], n, 0, 0)
  {
    var n := |s| - 1;
    var t := s[0 := s[n]][n := s[0]];
    forall c | 0 < c < n && ParentOf(c) != 0 ensures Ok(min, t, c) {
      assert Ok(min, s, c);
    }
  }

  /** Node i's children are nodes 2i+1 and 2i+2. */
  lemma ChildrenOf(i: nat)
    ensures forall c :: 0 < c && ParentOf(c) == i ==> c == 2 * i + 1 || c == 2 * i + 2
  {
  }

  /** Swapping two of the first n items leaves the items from n on alone. */
  lemma SwapKeepsTail<T>(s: seq<T>, i: nat, j: nat, n: nat)
    requires i < n && j < n && n <= |s|
    ensures s[i := s[j]][j := s[i]][n..] == s[n..]
  {
  }

  /** What a drain handed out goes in priority order. */
  ghost predicate InPopOrder<T>(min: bool, popped: seq<Item<T>>)
  {
    forall a, b :: 0 <= a < b < |popped| ==> !Less(min, popped[b], popped[a])
  }

  /** Nothing left in the heap goes above anything already handed out. */
  ghost predicate PoppedFirst<T>(min: bool, popped: seq<Item<T>>, data: seq<Item<T>>)
  {
    forall a, k :: 0 <= a < |popped| && 0 <= k < |data| ==> !Less(min, data[k], popped[a])
  }

  /** Handing out a top item of what is left keeps the drain in priority order. */
  lemma DrainStep<T>(min: bool, popped: seq<Item<T>>, before: seq<Item<T>>, x: Item<T>, after: seq<Item<T>>)
    requires InPopOrder(min, popped) && PoppedFirst(min, popped, before)
    requires forall k :: 0 <= k < |before| ==> !Less(min, before[k], x)
    requires multiset(after) + multiset{x} == multiset(before)
    ensures InPopOrder(min, popped + [x]) && PoppedFirst(min, popped + [x], after)
  {
    assert x in multiset(before);
    var i :| 0 <= i < |before| && before[i] == x;
    forall a, k | 0 <= a < |popped + [x]| && 0 <= k < |after|
      ensures !Less(min, after[k], (popped + [x])[a])
    {
      assert after[k] in multiset(before);
      var k' :| 0 <= k' < |before| && before[k'] == after[k];
    }
  }

  class Heap<T> {
    var data: seq<Item<T>>
    /** Backing-array slots past the slice's length, nearest first. */
    var spare: seq<Item<T>>
    /** Min-heap (`New`) or max-heap (`NewMax`). */
    const min: bool
    /** Go's zero value of T, written into vacated slots. */
    const zero: T

    ghost predicate Valid()
      reads this
    {
      Ordered(min, data, |data|)
    }

    /** A min-heap: the smallest priority on top. */
    constructor New(zero: T)
      ensures Valid() && min && data == [] && spare == [] && this.zero == zero
    {
      data := [];
      spare := [];
      min := true;
      this.zero := zero;
    }

    /** A max-heap: the largest priority on top. */
    constructor NewMax(zero: T)
      ensures Valid() && !min && data == [] && spare == [] && this.zero == zero
    {
      data := [];
      spare := [];
      min := false;
      this.zero := zero;
    }

    function Len(): (n: int)
      reads this
      ensures n == |data|
    {
      |data|
    }

    function less(i: int, j: int): (b: bool)
      reads this
      requires 0 <= i < |data| && 0 <= j < |data|
      ensures b <==> Less(min, data[i], data[j])
    {
      if min then data[i].priority < data[j].priority else data[i].priority > data[j].priority
    }

    method swap(i: int, j: int)
      requires 0 <= i < |data| && 0 <= j < |data|
      modifies this
      ensures data == old(data)[i := old(data)[j]][j := old(data)[i]]
      ensures multiset(data) == multiset(old(data))
      ensures spare == old(spare)
    {
      data := data[i := data[j]][j := data[i]];
    }

    /** Sifts node j up while it belongs above its parent. */
    method up(j: int)
      requires 0 <= j && UpInv(min, data, j)
      modifies this
      ensures Valid()
      ensures multiset(data) == multiset(old(data)) && |data| == |old(data)|
      ensures spare == old(spare)
    {
      var j := j;
      while true
        invariant 0 <= j && UpInv(min, data, j)
        invariant multiset(data) == multiset(old(data)) && |data| == |old(data)|
        invariant spare == old(spare)
        decreases j
      {
        var i := GoDiv(j - 1, 2);
        if i == j || !less(j, i) {
          break;
        }
        UpStep(min, data, j);
        swap(i, j);
        j := i;
      }
    }

    /** The child of node i, within the first n items, that belongs highest (the left one
        among equals). */
    method topChild(i: int, n: int) returns (j: int)
      requires 0 <= i && 2 * i + 1 < n <= |data|
      ensures 0 < j < n && ParentOf(j) == i
      ensures forall c :: 0 < c < n && ParentOf(c) == i ==> !Less(min, data[c], data[j])
    {
      var j1 := 2 * i + 1;
      j := j1;
      var j2 := j1 + 1;
      if j2 < n && less(j2, j1) {
        j := j2;
      }
      ChildrenOf(i);
    }

    /** One round of sift-down at node i: stops (`next == -1`) when no child belongs above i,
        otherwise swaps i with its child that belongs highest and continues from there. */
    method downStep(i0: int, n: int, i: int) returns (next: int)
      requires 0 <= i0 <= i && 0 <= n <= |data| && DownInv(min, data, n, i0, i)
      modifies this
      ensures multiset(data) == multiset(old(data)) && |data| == |old(data)|
      ensures data[n..] == old(data)[n..] && spare == old(spare)
      ensures next == -1 ==> data == old(data)
      ensures next == -1 ==> forall c :: 0 < c < n && c != i0 ==> Ok(min, data, c)
      ensures next == -1 && i > i0 ==> Ordered(min, data, n)
      ensures next != -1 ==> i < next <= n && DownInv(min, data, n, i0, next)
    {
      if 2 * i + 1 >= n {
        DownDone(min, data, n, i0, i);
        return -1;
      }
      var j := topChild(i, n);
      if !less(j, i) {
        DownDone(min, data, n, i0, i);
        return -1;
      }
      DownStep(min, data, n, i0, i, j);
      SwapKeepsTail(data, i, j, n);
      swap(i, j);
      next := j;
    }

    /** Sifts node i0 down within the first n items while a child belongs above it; reports
        whether it moved. */
    method down(i0: int, n: int) returns (moved: bool)
      requires 0 <= i0 && 0 <= n <= |data|
      requires DownInv(min, data, n, i0, i0)
      modifies this
      ensures multiset(data) == multiset(old(data)) && |data| == |old(data)|
      ensures data[n..] == old(data)[n..]
      ensures forall c :: 0 < c < n && c != i0 ==> Ok(min, data, c)
      ensures moved ==> Ordered(min, data, n)
      ensures !moved ==> data == old(data)
      ensures spare == old(spare)
    {
      var i := i0;
      while true
        invariant |data| == |old(data)| && multiset(data) == multiset(old(data))
        invariant i0 <= i && DownInv(min, data, n, i0, i)
        invariant data[n..] == old(data)[n..]
        invariant i == i0 ==> data == old(data)
        invariant spare == old(spare)
        decreases n - i
      {
        var next := downStep(i0, n, i);
        if next == -1 {
          break;
        }
        i := next;
      }
      moved := i > i0;
    }

    method Insert(priority: int, val: T)
      requires Valid()
      modifies this
      ensures Valid()
      ensures multiset(data) == multiset(old(data)) + multiset{Item(val, priority)}
      ensures |data| == |old(data)| + 1
      ensures spare == if old(spare) == [] then [] else old(spare)[1..]
    {
      AppendReady(min, data, Item(val, priority));
      data := data + [Item(val, priority)];
      spare := if spare == [] then [] else spare[1..];
      up(|data| - 1);
    }

    /** Puts the new item in place of the root, in one sift-down; on an empty heap, inserts. */
    method Replace(priority: int, val: T)
      requires Valid()
      modifies this
      ensures Valid()
      ensures old(data) == [] ==> multiset(data) == multiset{Item(val, priority)}
      ensures old(data) != [] ==>
        multiset(data) == multiset(old(data)) - multiset{old(data)[0]} + multiset{Item(val, priority)}
      ensures |data| == if old(data) == [] then 1 else |old(data)|
    {
      if |data| == 0 {
        Insert(priority, val);
        return;
      }
      RootReady(min, data, Item(val, priority));
      data := data[0 := Item(val, priority)];
      var _ := down(0, |data|);
    }

    /** Restores the heap after node i alone has changed priority; out of range, does nothing. */
    method Fix(i: int)
      requires 0 <= i < |data| ==> DownInv(min, data, |data|, i, i)
      requires !(0 <= i < |data|) ==> Valid()
      modifies this
      ensures Valid()
      ensures multiset(data) == multiset(old(data)) && |data| == |old(data)|
      ensures !(0 <= i < |data|) ==> data == old(data)
      ensures spare == old(spare)
    {
      if i < 0 || i >= |data| {
        return;
      }
      var moved := down(i, |data|);
      if !moved {
        up(i);
      }
    }

    /** Removes and returns the item on top, zeroing the slot it vacates in the backing array. */
    method Pop() returns (r: Option<Item<T>>)
      requires Valid()
      modifies this
      ensures Valid()
      ensures old(data) == [] ==> r == None && data == old(data) && spare == old(spare)
      ensures old(data) != [] ==>
        && r == Some(old(data)[0])
        && multiset(data) + multiset{r.value} == multiset(old(data))
        && |data| == |old(data)| - 1
        && spare == [Item(zero, 0)] + old(spare)
      ensures r.Some? ==> forall k :: 0 <= k < |old(data)| ==> !Less(min, old(data)[k], r.value)
    {
      if |data| == 0 {
        return None;
      }
      forall k | 0 <= k < |data| ensures !Less(min, data[k], data[0]) {
        RootFirst(min, data, |data|, k);
      }
      var n := |data| - 1;
      LastToRootReady(min, data);
      swap(0, n);
      var _ := down(0, n);
      var item := data[n];
      Vacate(n);
      return Some(item);
    }

    /** Zeroes the last slot and shrinks the slice by it. */
    method Vacate(n: int)
      requires 0 <= n && n == |data| - 1 && Ordered(min, data, n)
      modifies this
      ensures Valid()
      ensures data == old(data)[..n] && spare == [Item(zero, 0)] + old(spare)
      ensures multiset(data) + multiset{old(data)[n]} == multiset(old(data))
    {
      ghost var sifted := data;
      data := data[n := Item(zero, 0)];
      spare := [data[n]] + spare;
      assert sifted == sifted[..n] + [sifted[n]];
      data := data[..n];
      OrderedKeep(min, sifted, data, n);
    }

    /** The item on top, without removing it. */
    function Peek(): (r: Option<Item<T>>)
      reads this
      requires Valid()
      ensures r.Some? <==> |data| > 0
      ensures r.Some? ==> r.value in data && forall k :: 0 <= k < |data| ==> !Less(min, data[k], r.value)
    {
      if |data| == 0 then None
      else
        assert forall k :: 0 <= k < |data| ==> !Less(min, data[k], data[0]) by {
          forall k | 0 <= k < |data| ensures !Less(min, data[k], data[0]) {
            RootFirst(min, data, |data|, k);
          }
        }
        Some(data[0])
    }

    /** Pops and hands out values in priority order until the heap is empty or the consumer
        refuses one (which has then already been removed). */
    method Drain(accept: seq<T> -> bool) returns (out: seq<T>, ghost popped: seq<Item<T>>)
      requires Valid()
      modifies this
      ensures Valid()
      ensures |out| == |popped| && forall k :: 0 <= k < |out| ==> out[k] == popped[k].value
      ensures multiset(popped) + multiset(data) == multiset(old(data))
      ensures forall a, b :: 0 <= a < b < |popped| ==> !Less(min, popped[b], popped[a])
      ensures PoppedFirst(min, popped, data)
      ensures forall j :: 0 < j < |out| ==> accept(out[..j])
      ensures data == [] || (out != [] && !accept(out))
    {
      out := [];
      popped := [];
      while true
        invariant Valid()
        invariant |out| == |popped| && forall k :: 0 <= k < |out| ==> out[k] == popped[k].value
        invariant multiset(popped) + multiset(data) == multiset(old(data))
        invariant InPopOrder(min, popped) && PoppedFirst(min, popped, data)
        invariant forall j :: 0 < j <= |out| ==> accept(out[..j])
        decreases |data|
      {
        ghost var before := data;
        var r := Pop();
        if r.None? {
          return;
        }
        DrainStep(min, popped, before, r.value, data);
        PrefixesAccepted(accept, out, r.value.value);
        out := out + [r.value.value];
        popped := popped + [r.value];
        if !accept(out) {
          return;
        }
      }
    }
  }
}
