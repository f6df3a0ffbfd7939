/** The memory pool: a growable array of items addressed by 16-bit indices, free ones chained
    through the items themselves. Index 0xFFFF is both the null index and the end of the chain. */
module Pool {
  import opened Lists

  const FULL: nat := 0x1_0000
  const FIRST: nat := 128

  datatype Item<T> = FreeItem(next: nat) | Used(value: T)

  function Usable(size: nat): nat { if size < NULL then size else NULL }

  predicate IsSize(size: nat) {
    size == 128 || size == 256 || size == 512 || size == 1024 || size == 2048 || size == 4096 || size == 8192
    || size == 16384 || size == 32768 || size == 65536
  }

  lemma DoubledSize(size: nat)
    requires IsSize(size) && size < FULL
    ensures IsSize(2 * size) && size != NULL && 0 < size <= Usable(2 * size)
  {
  }

  /** The free chain from `head`: distinct usable indices, in this order. */
  predicate IsChain<T>(items: seq<Item<T>>, size: nat, head: nat, chain: seq<nat>) {
    && head == At(chain, 0)
    && (forall i :: 0 <= i < |chain| ==>
          && FIRST <= chain[i] < Usable(size) && chain[i] < |items|
          && items[chain[i]] == FreeItem(At(chain, i + 1)))
    && (forall i, j :: 0 <= i < j < |chain| ==> chain[i] != chain[j])
  }

  /** Every usable index is live or free, never both, and nothing else is live. */
  predicate Partitioned<T>(items: seq<Item<T>>, size: nat, chain: seq<nat>) {
    forall i: nat :: i < |items| ==>
      (items[i].Used? <==> FIRST <= i < Usable(size) && i !in chain)
  }

  /** The live items. */
  function Live<T>(items: seq<Item<T>>): map<nat, T> {
    map i: nat | i < |items| && items[i].Used? :: items[i].value
  }

  lemma LiveSet<T>(items: seq<Item<T>>, i: nat, value: T)
    requires i < |items|
    ensures Live(items[i := Used(value)]) == Live(items)[i := value]
  {
  }

  lemma LiveCleared<T>(items: seq<Item<T>>, i: nat, next: nat)
    requires i < |items|
    ensures Live(items[i := FreeItem(next)]) == Live(items) - {i}
  {
  }

  lemma LiveGrown<T>(a: seq<Item<T>>, b: seq<Item<T>>)
    requires |a| <= |b| && b[..|a|] == a && forall i :: |a| <= i < |b| ==> b[i].FreeItem?
    ensures Live(b) == Live(a)
  {
    forall i | 0 <= i < |a| ensures b[i] == a[i] { assert b[..|a|][i] == b[i]; }
  }

  /** With an empty chain exactly the usable indices are live. */
  lemma Exhausted<T>(items: seq<Item<T>>, size: nat)
    requires IsChain(items, size, NULL, []) && Partitioned(items, size, [])
         && (|items| == size || (size == FIRST && items == []))
    ensures forall i: nat :: i in Live(items) <==> FIRST <= i < Usable(size)
  {
  }

  lemma PoppedChain<T>(items: seq<Item<T>>, size: nat, head: nat, chain: seq<nat>, value: T)
    requires IsChain(items, size, head, chain) && head != NULL
    ensures chain != [] && head == chain[0] && head < |items| && items[head] == FreeItem(At(chain, 1))
         && FIRST <= head < Usable(size)
    ensures IsChain(items[head := Used(value)], size, At(chain, 1), chain[1..])
  {
    hide Usable;
    var rest, after := chain[1..], items[head := Used(value)];
    forall i | 0 <= i < |rest|
      ensures rest[i] == chain[i + 1] && rest[i] != head && after[rest[i]] == FreeItem(At(rest, i + 1))
    {
      assert items[chain[i + 1]] == FreeItem(At(chain, i + 2));
    }
  }

  /** Taking the head of the chain. */
  lemma Popped<T>(items: seq<Item<T>>, size: nat, head: nat, chain: seq<nat>, value: T)
    requires IsChain(items, size, head, chain) && Partitioned(items, size, chain) && head != NULL
    ensures chain != [] && head == chain[0] && head < |items| && items[head].FreeItem? && head !in Live(items)
    ensures FIRST <= head < Usable(size)
    ensures var after := items[head := Used(value)];
            IsChain(after, size, items[head].next, chain[1..]) && Partitioned(after, size, chain[1..])
  {
    hide IsChain, Usable, Partitioned;
    PoppedChain(items, size, head, chain, value);
    HeadOnce(items, size, head, chain);
    PoppedPartition(items, size, chain, value);
  }

  lemma PoppedPartition<T>(items: seq<Item<T>>, size: nat, chain: seq<nat>, value: T)
    requires Partitioned(items, size, chain) && chain != [] && chain[0] !in chain[1..]
    requires chain[0] < |items| && FIRST <= chain[0] < Usable(size)
    ensures Partitioned(items[chain[0] := Used(value)], size, chain[1..])
  {
    hide Usable;
    var head, rest := chain[0], chain[1..];
    Cons(head, rest);
    assert chain == [head] + rest;
  }

  lemma Cons(x: nat, s: seq<nat>)
    ensures forall y :: y in [x] + s <==> y == x || y in s
  {
  }

  lemma HeadOnce<T>(items: seq<Item<T>>, size: nat, head: nat, chain: seq<nat>)
    requires IsChain(items, size, head, chain) && chain != []
    ensures head == chain[0] && head !in chain[1..]
  {
  }

  /** Putting an item back in front. */
  lemma Pushed<T>(items: seq<Item<T>>, size: nat, head: nat, chain: seq<nat>, x: nat)
    requires IsChain(items, size, head, chain) && Partitioned(items, size, chain)
    requires x < |items| && items[x].Used?
    ensures var after := items[x := FreeItem(head)];
            IsChain(after, size, x, [x] + chain) && Partitioned(after, size, [x] + chain)
  {
    var longer := [x] + chain;
    forall i | 0 < i < |longer|
      ensures longer[i] == chain[i - 1] && longer[i] != x
    {
      assert chain[i - 1] in chain;
    }
  }

  /** Items `[from, to)` chained in order. */
  predicate Linked<T>(items: seq<Item<T>>, from: nat, to: nat) {
    from <= to <= |items| && forall i :: from <= i < to ==> items[i] == FreeItem(i + 1)
  }

  function Count(from: nat, to: nat): (s: seq<nat>)
    requires from <= to
    ensures |s| == to - from && forall i :: 0 <= i < |s| ==> s[i] == from + i
  {
    seq(to - from, i requires 0 <= i < to - from => from + i)
  }

  /** Appended items, the last but one already linked to the end: at the largest size the null
      index ends the chain before the last item, which thus can never be handed out. */
  lemma Grown<T>(a: seq<Item<T>>, b: seq<Item<T>>, size: nat)
    requires IsSize(size) && size < FULL && (|a| == size || (size == FIRST && a == []))
    requires IsChain(a, size, NULL, []) && Partitioned(a, size, [])
    requires |b| == 2 * size && b[..|a|] == a && (forall i :: |a| <= i < size ==> b[i].FreeItem?)
    requires Linked(b, size, 2 * size - 1) && b[2 * size - 1] == FreeItem(NULL)
    ensures var chain := Count(size, Usable(2 * size));
            IsChain(b, 2 * size, size, chain) && Partitioned(b, 2 * size, chain)
    ensures Live(b) == Live(a)
  {
    forall i | 0 <= i < |a| ensures b[i] == a[i] { assert b[..|a|][i] == b[i]; }
    assert forall i :: |a| <= i < |b| ==> b[i].FreeItem?;
    LiveGrown(a, b);
    var chain, most := Count(size, Usable(2 * size)), Usable(2 * size);
    hide IsSize, Count;
    forall i: nat | i < |b|
      ensures i in chain <==> size <= i < most
    {
      if size <= i < most {
        assert chain[i - size] == i;
      }
    }
    assert IsChain(b, 2 * size, size, chain) by {
      forall i | 0 <= i < |chain|
        ensures b[chain[i]] == FreeItem(At(chain, i + 1))
      {
        assert chain[i] == size + i;
      }
    }
  }

  /** Link the new items of an array together. */
  method LinkUp<T>(items: array<Item<T>>, from: nat)
    requires from < items.Length
    modifies items
    ensures items[..from] == old(items[..from])
    ensures Linked(items[..], from, items.Length - 1) && items[items.Length - 1] == FreeItem(NULL)
  {
    var i := from;
    while i != items.Length
      invariant from <= i <= items.Length && items[..from] == old(items[..from])
      invariant forall k :: from <= k < i ==> items[k] == FreeItem(k + 1)
    {
      items[i] := FreeItem(i + 1);
      i := i + 1;
    }
    items[items.Length - 1] := FreeItem(NULL);
  }

  /** A larger array with the same contents and the new items linked together. */
  method Reallocate<T>(before: array<Item<T>>, size: nat) returns (after: array<Item<T>>)
    requires before.Length <= size && 0 < size
    ensures fresh(after) && after.Length == 2 * size && after[..][..before.Length] == before[..]
    ensures forall i :: before.Length <= i < size ==> after[..][i].FreeItem?
    ensures Linked(after[..], size, 2 * size - 1) && after[..][2 * size - 1] == FreeItem(NULL)
  {
    hide Linked;
    after := new Item<T>[2 * size](i requires 0 <= i reads before => if i < before.Length then before[i]
        else FreeItem(0));
    ghost var made := after[..];
    LinkUp(after, size);
    SamePrefix(made, after[..], before[..], size);
  }

  lemma SamePrefix<T>(a: seq<T>, b: seq<T>, s: seq<T>, n: nat)
    requires |s| <= n <= |a| == |b| && b[..n] == a[..n] && forall i :: 0 <= i < |s| ==> a[i] == s[i]
    ensures b[..|s|] == s && forall i :: 0 <= i < n ==> b[i] == a[i]
  {
    forall i | 0 <= i < n ensures b[i] == a[i] { assert b[..n][i] == a[..n][i]; }
  }

  class Pool<T> {
    var items: array<Item<T>>
    var size: nat
    var free: nat
    var used: nat
    ghost var chain: seq<nat>

    ghost predicate Valid()
      reads this, items
    {
      && IsSize(size) && (items.Length == size || (size == FIRST && items.Length == 0))
      && IsChain(items[..], size, free, chain) && Partitioned(items[..], size, chain)
      && used == |Live(items[..])|
    }

    constructor ()
      ensures Valid() && fresh(items) && Live(items[..]) == map[]
    {
      items := new Item<T>[0];
      size, free, used, chain := FIRST, NULL, 0, [];
      new;
      assert Live(items[..]) == map[];
    }

    /** Double the array when there is memory for it. */
    method Expand(memory: bool) returns (ok: bool)
      requires Valid() && free == NULL
      modifies this`items, this`size, this`free, this`chain, items
      ensures Valid() && (items == old(items) || fresh(items)) && Live(items[..]) == old(Live(items[..]))
      ensures ok <==> old(size) < FULL && memory
      ensures ok ==> size == 2 * old(size) && free != NULL
      ensures !ok ==> size == old(size) && free == NULL
    {
      hide Live, IsChain, Partitioned, Linked, IsSize, Count, Usable, Valid;
      ghost var a := items[..];
      Parts();
      if size == FULL || !memory {
        return false;
      }
      var nextSize := 2 * size;
      var after := Reallocate(items, size);
      Grown(a, after[..], size);
      DoubledSize(size);
      Adopt(after, nextSize);
      ok := true;
    }

    /** Switch to the larger array, whose free items start where the old array ended. */
    method Adopt(after: array<Item<T>>, nextSize: nat)
      requires IsSize(nextSize) && after.Length == nextSize && used == |Live(after[..])| && size <= Usable(nextSize)
      requires IsChain(after[..], nextSize, size, Count(size, Usable(nextSize)))
      requires Partitioned(after[..], nextSize, Count(size, Usable(nextSize)))
      modifies this`items, this`size, this`free, this`chain
      ensures Valid() && items == after && size == nextSize && free == old(size)
    {
      hide Live, IsChain, Partitioned, IsSize, Count, Usable, Valid;
      items, free, size, chain := after, size, nextSize, Count(size, Usable(nextSize));
      Whole();
    }

    lemma Parts()
      requires Valid()
      ensures IsSize(size) && size <= FULL && (items.Length == size || (size == FIRST && items.Length == 0))
      ensures IsChain(items[..], size, free, chain) && Partitioned(items[..], size, chain)
      ensures used == |Live(items[..])| && (free == NULL ==> chain == [])
    {
    }

    lemma Whole()
      requires IsSize(size) && items.Length == size && used == |Live(items[..])|
      requires IsChain(items[..], size, free, chain) && Partitioned(items[..], size, chain)
      ensures Valid()
    {
    }

    /** Hand out an item: never the null index, never one that is live. */
    method New(value: T, memory: bool) returns (r: nat)
      requires Valid()
      modifies this, items
      ensures Valid() && (items == old(items) || fresh(items))
      ensures r == NULL <==> old(free) == NULL && (old(size) == FULL || !memory)
      ensures r == NULL ==> Live(items[..]) == old(Live(items[..])) && size == old(size)
      ensures r != NULL ==> FIRST <= r < NULL && r !in old(Live(items[..]))
      ensures r != NULL ==> Live(items[..]) == old(Live(items[..]))[r := value]
      ensures r == NULL ==> forall i: nat :: i in Live(items[..]) <==> FIRST <= i < Usable(size)
    {
      hide Live, IsChain, Partitioned, IsSize, Usable;
      if free == NULL {
        var ok := Expand(memory);
        if !ok {
          Parts();
          Exhausted(items[..], size);
          return NULL;
        }
      }
      r := TakeHead(value);
    }

    /** Hand out the first free item. */
    method TakeHead(value: T) returns (r: nat)
      requires Valid() && free != NULL
      modifies this`free, this`used, this`chain, items
      ensures Valid() && FIRST <= r < NULL && r !in old(Live(items[..]))
      ensures Live(items[..]) == old(Live(items[..]))[r := value]
    {
      Parts();
      hide Live, IsChain, Partitioned, IsSize;
      Popped(items[..], size, free, chain, value);
      LiveSet(items[..], free, value);
      r := free;
      free := items[r].next;
      items[r] := Used(value);
      chain, used := chain[1..], used + 1;
    }

    /** Take an item back. */
    method Free(x: nat)
      requires Valid() && x in Live(items[..])
      modifies this`free, this`used, this`chain, items
      ensures Valid() && Live(items[..]) == old(Live(items[..])) - {x} && free == x
    {
      Pushed(items[..], size, free, chain, x);
      LiveCleared(items[..], x, free);
      items[x] := FreeItem(free);
      free, used, chain := x, used - 1, [x] + chain;
    }
  }
}
