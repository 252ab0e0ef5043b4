/** The buddy allocator in memory: bd_malloc, size and bd_free of kernel/buddy.c work
    in place on the bitmaps and on the free lists threaded through the blocks. */
module BuddyAllocator {
  import opened Buddy
  import L = CircularList
  import B = BuddyBoot

  /** The list heads lie apart from the blocks. */
  function HeadOf(top: nat, k: nat): nat {
    Pow2(top) + k
  }

  function Heads(top: nat): seq<nat> {
    seq(top + 1, k requires 0 <= k => HeadOf(top, k))
  }

  /** A free list of blocks as a list of addresses. */
  function AddrList(k: nat, blocks: seq<nat>): seq<nat> {
    seq(|blocks|, n requires 0 <= n < |blocks| => Addr(k, blocks[n]))
  }

  function AddrLists(free: seq<seq<nat>>): seq<seq<nat>> {
    seq(|free|, k requires 0 <= k < |free| => AddrList(k, free[k]))
  }

  /** A bit vector with the bits from `from` to `to` set. */
  function WithRange(bits: seq<bool>, from: nat, to: nat): seq<bool> {
    seq(|bits|, i requires 0 <= i < |bits| => bits[i] || from <= i < to)
  }

  /** The split bits of order k after marking; order 0 has none. */
  function SplitRange(k: nat, bits: seq<bool>, from: nat, to: nat): seq<bool> {
    if k > 0 then WithRange(bits, from, to) else bits
  }

  lemma RangeNone(k: nat, bits: seq<bool>, splits: seq<bool>, from: nat, to: nat)
    ensures WithRange(bits, from, from) == bits && SplitRange(k, splits, from, from) == splits
    ensures to <= from ==> WithRange(bits, from, to) == bits && SplitRange(k, splits, from, to) == splits
  {
    assert WithRange(bits, from, from) == bits && WithRange(splits, from, from) == splits;
    assert to <= from ==> WithRange(bits, from, to) == bits && WithRange(splits, from, to) == splits;
  }

  lemma RangeMore(k: nat, bits: seq<bool>, splits: seq<bool>, from: nat, bi: nat)
    requires from <= bi < |bits| == |splits|
    ensures |WithRange(bits, from, bi)| == |bits| && |SplitRange(k, splits, from, bi)| == |splits|
    ensures WithRange(bits, from, bi)[bi := true] == WithRange(bits, from, bi + 1)
    ensures SplitRange(k, splits, from, bi + 1)
         == if k > 0 then SplitRange(k, splits, from, bi)[bi := true] else SplitRange(k, splits, from, bi)
  {
    assert WithRange(bits, from, bi)[bi := true] == WithRange(bits, from, bi + 1);
    assert WithRange(splits, from, bi)[bi := true] == WithRange(splits, from, bi + 1);
  }

  lemma AddEmptyRing(next: map<nat, nat>, prev: map<nat, nat>, heads: seq<nat>, lists: seq<seq<nat>>, k: nat)
    requires k < |heads| == |lists| && lists[k] == [] && L.Rings(next, prev, heads[..k], lists[..k])
    requires forall j :: 0 <= j < k ==> heads[k] !in L.Nodes(heads[j], lists[j])
    ensures L.Rings(next[heads[k] := heads[k]], prev[heads[k] := heads[k]], heads[..k + 1], lists[..k + 1])
  {
    var next', prev', h := next[heads[k] := heads[k]], prev[heads[k] := heads[k]], heads[k];
    assert L.Nodes(h, []) == [h] && L.LinkedAt(next', prev', [h], 0);
    forall j | 0 <= j < k
      ensures L.IsRing(next', prev', heads[j], lists[j])
    {
      assert L.IsRing(next, prev, heads[..k][j], lists[..k][j]);
      forall a | a in L.Nodes(heads[j], lists[j])
        ensures a in next && a in prev
      {
        L.NeighboursInRing(next, prev, heads[j], lists[j], a);
      }
      L.OtherRingKept(next, prev, next', prev', heads[j], lists[j]);
    }
    var hs, ls := heads[..k + 1], lists[..k + 1];
    forall i, j | 0 <= i < |hs| && 0 <= j < |hs| && i != j
      ensures L.Apart(hs, ls, i, j)
    {
      if i < k && j < k {
        assert L.Apart(heads[..k], lists[..k], i, j);
      }
    }
  }

  lemma AddrInside(h: Heap, k: nat, i: nat)
    requires Shape(h) && In(h, k, i)
    ensures Addr(k, i) < Pow2(h.top)
  {
    LevelSize(h, k);
    PowSplit(h.top - k, k);
    MulMono(i + 1, Pow2(h.top - k), Pow2(k));
    assert (i + 1) * Pow2(k) == i * Pow2(k) + Pow2(k);
  }

  lemma {:induction false} PowSplit(a: nat, b: nat)
    ensures Pow2(a) * Pow2(b) == Pow2(a + b)
  {
    if a > 0 {
      PowSplit(a - 1, b);
      TwiceTimes(Pow2(a - 1), Pow2(b));
      assert Pow2(a + b) == 2 * Pow2(a - 1 + b);
    }
  }

  lemma TwiceTimes(x: nat, y: nat)
    ensures (2 * x) * y == 2 * (x * y)
  {
  }

  lemma AddrInjective(k: nat, i: nat, j: nat)
    requires Addr(k, i) == Addr(k, j)
    ensures i == j
  {
    AddrIndex(k, i);
    AddrIndex(k, j);
  }

  /** The address of a block that is not free is no node of any free list. */
  lemma NotANode(h: Heap, k: nat, i: nat, j: nat)
    requires Inv(h) && In(h, k, i) && !IsFree(h, k, i) && j <= h.top
    requires forall m :: In(h, j, m) && IsFree(h, j, m) ==> Addr(j, m) != Addr(k, i)
    ensures Addr(k, i) !in L.Nodes(HeadOf(h.top, j), AddrList(j, h.free[j]))
  {
    AddrInside(h, k, i);
    assert Listed(h, j);
    forall n | 0 <= n < |h.free[j]|
      ensures AddrList(j, h.free[j])[n] != Addr(k, i)
    {
      assert In(h, j, h.free[j][n]) && IsFree(h, j, h.free[j][n]);
    }
  }

  /** No free block starts where a live block, or the right half of one, does. */
  lemma LiveApartFromFree(h: Heap, k: nat, i: nat, j: nat, m: nat)
    requires Inv(h) && In(h, k, i) && In(h, j, m) && IsFree(h, j, m)
    requires Live(h, k, i)
    ensures Addr(j, m) != Addr(k, i)
    ensures k > 0 ==> Addr(j, m) != Addr(k - 1, 2 * i + 1)
  {
    var x := Addr(j, m);
    LevelSize(h, 0);
    AddrInside(h, j, m);
    assert In(h, 0, x);
    AddrIndex(j, m);
    assert NodeOk(h, j, m);
    var c := Tiling(h, x);
    assert Covers(h, j, x);
    AddrIndex(k, i);
    if x == Addr(k, i) {
      assert Covers(h, k, x);
    }
    if k > 0 && x == Addr(k - 1, 2 * i + 1) {
      AddrIndex(k - 1, 2 * i + 1);
      assert Containing(x, k) == i;
      assert Covers(h, k, x);
    }
  }

  lemma ListedAt(h: Heap, k: nat)
    requires Inv(h) && k <= h.top
    ensures Shape(h) && Listed(h, k)
  {
  }

  lemma SplitTwice(k: nat, bits: seq<bool>, a: nat, b: nat, c: nat, d: nat)
    ensures SplitRange(k, SplitRange(k, bits, a, b), c, d)
         == if k > 0 then WithRange(WithRange(bits, a, b), c, d) else bits
  {
  }

  /** Taking a block off a list of blocks, and its address off the list of addresses. */
  lemma RemovedLists(free: seq<seq<nat>>, k: nat, b: nat, n: nat)
    requires k < |free| && n < |free[k]| && free[k][n] == b
    requires forall i, j :: 0 <= i < j < |free[k]| ==> free[k][i] != free[k][j]
    ensures AddrLists(free[k := Without(free[k], b)]) == AddrLists(free)[k := L.Without(AddrLists(free)[k], n)]
  {
    WithoutAt(free[k], b, n);
    assert L.Without(AddrLists(free)[k], n) == AddrList(k, Without(free[k], b));
  }

  lemma MarkedTwice(top: nat, lo: nat, hi: nat, k: nat)
    requires k <= top
    ensures var once := WithRange(B.NoBits(top, k), Containing(0, k), B.Left(lo, k));
      WithRange(once, Containing(hi, k), B.Left(Pow2(top), k)) == B.Bits(top, lo, hi, k)
  {
    B.AllBlocks(top, k);
  }

  lemma SumSizes(a: nat, b: nat, p: nat)
    ensures a * p + b * p == (b + a) * p
  {
  }

  /** A block that start-up frees is at no address already on a list. */
  lemma BootNodeFresh(top: nat, lo: nat, hi: nat, k: nat, i: nat, j: nat, items: seq<nat>)
    requires 0 < lo <= hi < Pow2(top) && B.NoClash(top, lo, hi, 0) && k < top && j <= top && i < Pow2(top - k)
    requires i in B.FreeList(lo, hi, k) && (j == k ==> i !in items)
    requires j > k ==> items == []
    requires j <= k ==> forall x :: x in items ==> x in B.FreeList(lo, hi, j)
    ensures Addr(k, i) !in L.Nodes(HeadOf(top, j), AddrList(j, items))
  {
    B.BootInv(top, lo, hi);
    var h := B.BootHeap(top, lo, hi);
    assert In(h, k, i) && IsFree(h, k, i);
    AddrInside(h, k, i);
    forall n | 0 <= n < |items|
      ensures AddrList(j, items)[n] != Addr(k, i)
    {
      var x := items[n];
      assert x in items;
      if j == k {
        if Addr(k, x) == Addr(k, i) {
          AddrInjective(k, x, i);
        }
      } else {
        assert Listed(h, j) && h.free[j] == B.FreeList(lo, hi, j);
        assert In(h, j, x) && IsFree(h, j, x);
        FreeAddressesDiffer(h, k, i, j, x);
      }
    }
  }

  /** Blocks that may be pushed on the list of order k: start-up frees them, and none is on
      it already. */
  predicate Pushable(lo: nat, hi: nat, k: nat, blocks: seq<nat>, items: seq<nat>) {
    && (forall x :: x in blocks ==> x in B.FreeList(lo, hi, k) && x !in items)
    && (forall x :: x in items ==> x in B.FreeList(lo, hi, k))
  }

  lemma PushableAt(lo: nat, hi: nat, k: nat, blocks: seq<nat>, items: seq<nat>, x: nat)
    requires Pushable(lo, hi, k, blocks, items) && x in blocks
    ensures x in B.FreeList(lo, hi, k) && x !in items && forall y :: y in items ==> y in B.FreeList(lo, hi, k)
  {
  }

  lemma PushablePairs(top: nat, lo: nat, hi: nat, k: nat)
    requires k < top
    ensures var left, right := B.Pair(lo, hi, k, B.Left(lo, k)), B.Pair(lo, hi, k, B.Right(hi, k));
      && Pushable(lo, hi, k, left, [])
      && (B.NoClash(top, lo, hi, 0) && B.Right(hi, k) > B.Left(lo, k) ==> Pushable(lo, hi, k, right, left))
  {
    hide B.Pair, B.FreeList, B.Left, Containing, B.Clash;
    B.PairsDiffer(lo, hi, k);
  }

  lemma AddrListAt(free: seq<seq<nat>>, j: nat)
    requires j < |free|
    ensures |AddrLists(free)| == |free| && AddrLists(free)[j] == AddrList(j, free[j])
  {
  }

  lemma PushedList(free: seq<seq<nat>>, k: nat, i: nat)
    requires k < |free|
    ensures |AddrLists(free)| == |free|
    ensures AddrLists(free[k := [i] + free[k]]) == AddrLists(free)[k := [Addr(k, i)] + AddrLists(free)[k]]
  {
    hide Addr;
    assert AddrList(k, [i] + free[k]) == [Addr(k, i)] + AddrList(k, free[k]);
  }

  class Allocator {
    const top: nat
    const links: L.Links
    var alloc: seq<seq<bool>>
    var split: seq<seq<bool>>
    ghost var free: seq<seq<nat>>

    ghost function View(): Heap
      reads this
    {
      Heap(top, alloc, split, free)
    }

    ghost predicate Valid()
      reads this, links
    {
      Inv(View()) && L.Rings(links.next, links.prev, Heads(top), AddrLists(free))
    }

    /** The zeroed bitmaps and empty lists that bd_init sets up. */
    constructor (top: nat)
      ensures this.top == top && fresh(links)
      ensures View() == B.ZeroHeap(top)
      ensures L.Rings(links.next, links.prev, Heads(top), AddrLists(free))
    {
      this.top := top;
      links := new L.Links();
      alloc := seq(top + 1, k requires 0 <= k <= top => B.NoBits(top, k));
      split := seq(top + 1, k requires 0 <= k <= top => B.NoBits(top, k));
      free := seq(top + 1, _ => []);
      new;
      ghost var h := View();
      ghost var lists := AddrLists(free);
      var k := 0;
      while k <= top
        invariant 0 <= k <= top + 1 && View() == h
        invariant L.Rings(links.next, links.prev, Heads(top)[..k], lists[..k])
      {
        AddEmptyRing(links.next, links.prev, Heads(top), lists, k);
        links.Init(HeadOf(top, k));
        k := k + 1;
      }
      assert Heads(top)[..k] == Heads(top) && lists[..k] == lists;
    }

    /** The inner loop of bd_mark: mark the blocks of order k from `from` to `to`. */
    method MarkOrder(k: nat, from: nat, to: nat)
      requires Shape(View()) && k <= top && to <= |alloc[k]|
      modifies this`alloc, this`split
      ensures Shape(View()) && alloc == old(alloc)[k := WithRange(old(alloc[k]), from, to)]
      ensures split == old(split)[k := SplitRange(k, old(split[k]), from, to)]
    {
      hide WithRange, SplitRange;
      var bi := from;
      RangeNone(k, alloc[k], split[k], from, to);
      assert alloc == alloc[k := alloc[k]] && split == split[k := split[k]];
      while bi < to
        invariant from <= bi && (bi <= to || bi == from) && Shape(View())
        invariant alloc == old(alloc)[k := WithRange(old(alloc[k]), from, bi)]
        invariant split == old(split)[k := SplitRange(k, old(split[k]), from, bi)]
      {
        RangeMore(k, old(alloc[k]), old(split[k]), from, bi);
        if k > 0 {
          split := split[k := split[k][bi := true]];
        }
        alloc := alloc[k := alloc[k][bi := true]];
        bi := bi + 1;
      }
    }

    /** bd_mark, in leaves. */
    method Mark(start: nat, stop: nat)
      requires Shape(View()) && stop <= Pow2(top)
      modifies this`alloc, this`split
      ensures Shape(View())
      ensures forall k :: 0 <= k <= top ==> alloc[k] == WithRange(old(alloc[k]), Containing(start, k), B.Left(stop, k))
      ensures forall k :: 0 <= k <= top ==>
        split[k] == SplitRange(k, old(split[k]), Containing(start, k), B.Left(stop, k))
    {
      hide WithRange, SplitRange, Containing, B.Left;
      var k := 0;
      while k <= top
        invariant 0 <= k <= top + 1 && Shape(View())
        invariant forall j :: 0 <= j < k ==> alloc[j] == WithRange(old(alloc[j]), Containing(start, j), B.Left(stop, j))
        invariant forall j :: 0 <= j < k ==>
          split[j] == SplitRange(j, old(split[j]), Containing(start, j), B.Left(stop, j))
        invariant forall j :: k <= j <= top ==> alloc[j] == old(alloc[j]) && split[j] == old(split[j])
      {
        LevelSize(View(), k);
        B.LeftAtMost(stop, k, top - k);
        MarkOrder(k, Containing(start, k), B.Left(stop, k));
        k := k + 1;
      }
    }

    /** The bits are those that marking [0, lo) and [hi, end of heap) leaves. */
    ghost predicate MarkedBits(lo: nat, hi: nat)
      reads this
    {
      && Shape(View())
      && forall k :: 0 <= k <= top ==>
           alloc[k] == B.Bits(top, lo, hi, k) && (k > 0 ==> split[k] == B.Bits(top, lo, hi, k))
    }

    /** The lists in memory are those of `free`. */
    ghost predicate Linked()
      reads this`free, links
    {
      L.Rings(links.next, links.prev, Heads(top), AddrLists(free))
    }

    /** Enough of them is there for a push, even when a block has been pushed twice. */
    ghost predicate HeadsThere()
      reads links
    {
      forall k :: 0 <= k <= top ==> HeadOf(top, k) in links.next
    }

    /** During bd_initfree: the lists below order k are done, those above are empty. */
    ghost predicate FreeUpTo(lo: nat, hi: nat, k: nat)
      reads this`free
    {
      && |free| == top + 1
      && (forall j :: 0 <= j < k && j < top ==> free[j] == B.FreeList(lo, hi, j))
      && (forall j :: k < j <= top ==> free[j] == [])
    }

    /** bd_initfree_pair.  Without a clash at any order the lists stay in good order. */
    method InitFreePair(k: nat, bi: nat, ghost lo: nat, ghost hi: nat) returns (size: nat)
      requires MarkedBits(lo, hi) && HeadsThere() && FreeUpTo(lo, hi, k) && k < top && bi < Pow2(top - k)
      requires 0 < lo <= hi < Pow2(top)
      requires B.NoClash(top, lo, hi, 0) ==> Linked() && Pushable(lo, hi, k, B.Pair(lo, hi, k, bi), free[k])
      modifies links, this`free
      ensures HeadsThere() && |free| == top + 1 && free == old(free)[k := B.Pair(lo, hi, k, bi) + old(free[k])]
      ensures B.NoClash(top, lo, hi, 0) ==> Linked()
      ensures size == |B.Pair(lo, hi, k, bi)| * Pow2(k)
    {
      hide L.Rings, B.FreeList, B.NoClash, B.Left, Containing;
      size := 0;
      var buddy := if bi % 2 == 0 then bi + 1 else bi - 1;
      assert Pow2(top - k) == 2 * Pow2(top - k - 1);
      LevelSize(View(), k);
      if alloc[k][bi] != alloc[k][buddy] {
        size := Pow2(k);
        if alloc[k][bi] {
          assert B.Pair(lo, hi, k, bi) == [buddy];
          PushBoot(k, buddy, lo, hi);
        } else {
          assert B.Pair(lo, hi, k, bi) == [bi];
          PushBoot(k, bi, lo, hi);
        }
      } else {
        assert B.Pair(lo, hi, k, bi) == [];
        assert free[k] == [] + free[k];
      }
    }

    /** lst_push of a block at start-up. */
    method PushBoot(k: nat, i: nat, ghost lo: nat, ghost hi: nat)
      requires HeadsThere() && FreeUpTo(lo, hi, k) && k < top && i < Pow2(top - k) && 0 < lo <= hi < Pow2(top)
      requires B.NoClash(top, lo, hi, 0) ==> Linked() && Pushable(lo, hi, k, [i], free[k])
      modifies links, this`free
      ensures HeadsThere() && |free| == top + 1 && free == old(free)[k := [i] + old(free[k])]
      ensures B.NoClash(top, lo, hi, 0) ==> Linked()
    {
      hide L.Rings, B.FreeList, B.NoClash, L.Nodes, AddrLists, AddrList;
      ghost var lists, q, clean := AddrLists(free), Addr(k, i), B.NoClash(top, lo, hi, 0);
      if clean {
        forall j | 0 <= j < |Heads(top)|
          ensures j < |lists| && q !in L.Nodes(Heads(top)[j], lists[j])
        {
          PushableAt(lo, hi, k, [i], free[k], i);
          AddrListAt(free, j);
          BootNodeFresh(top, lo, hi, k, i, j, free[j]);
        }
        L.LinkKeepsRings(links.next, links.prev, Heads(top), lists, k, q);
      }
      links.Push(HeadOf(top, k), Addr(k, i));
      PushedList(free, k, i);
      free := free[k := [i] + free[k]];
    }

    /** One order of bd_initfree. */
    method InitFreeOrder(k: nat, lo: nat, hi: nat) returns (size: nat)
      requires MarkedBits(lo, hi) && HeadsThere() && FreeUpTo(lo, hi, k) && k < top && free[k] == []
      requires 0 < lo <= Pow2(top - 1) && lo <= hi < Pow2(top) && (B.NoClash(top, lo, hi, 0) ==> Linked())
      modifies links, this`free
      ensures HeadsThere() && |free| == top + 1 && free == old(free)[k := B.FreeList(lo, hi, k)]
      ensures B.NoClash(top, lo, hi, 0) ==> Linked()
      ensures size == |B.FreeList(lo, hi, k)| * Pow2(k)
    {
      hide L.Rings, B.FreeList, B.NoClash, B.Pair, Pushable, B.Left, Containing, Linked;
      var left, right := B.Left(lo, k), B.Right(hi, k);
      B.PairsDiffer(lo, hi, k);
      B.EndsInside(top, lo, hi, k);
      ghost var one, two := B.Pair(lo, hi, k, left), B.Pair(lo, hi, k, right);
      PushablePairs(top, lo, hi, k);
      size := InitFreePair(k, left, lo, hi);
      assert free[k] == one by {
        assert one + [] == one;
      }
      if right > left {
        var more := InitFreePair(k, right, lo, hi);
        SumSizes(|one|, |two|, Pow2(k));
        size := size + more;
      }
    }

    /** bd_initfree */
    method InitFree(lo: nat, hi: nat) returns (total: nat)
      requires MarkedBits(lo, hi) && Linked() && |free| == top + 1 && (forall j :: 0 <= j <= top ==> free[j] == [])
      requires top > 0 && 0 < lo <= Pow2(top - 1) && lo <= hi < Pow2(top)
      modifies links, this`free
      ensures FreeUpTo(lo, hi, top) && free[top] == [] && total == B.Total(top, lo, hi, 0)
      ensures B.NoClash(top, lo, hi, 0) ==> Linked()
    {
      hide L.Rings, B.FreeList, B.NoClash, Linked;
      RingsHaveHeads();
      total := 0;
      var k := 0;
      while k < top
        invariant 0 <= k <= top && MarkedBits(lo, hi) && HeadsThere() && FreeUpTo(lo, hi, k) && free[k] == []
        invariant B.NoClash(top, lo, hi, 0) ==> Linked()
        invariant total + B.Total(top, lo, hi, k) == B.Total(top, lo, hi, 0)
      {
        var size := InitFreeOrder(k, lo, hi);
        total := total + size;
        k := k + 1;
      }
    }

    lemma RingsHaveHeads()
      requires Linked()
      ensures HeadsThere()
    {
      forall k | 0 <= k <= top
        ensures HeadOf(top, k) in links.next
      {
        var h, items := Heads(top)[k], AddrLists(free)[k];
        L.NeighboursInRing(links.next, links.prev, h, items, h);
      }
    }

    /** bd_init from its zeroed bitmaps on, with the metadata in the leaves before lo
        and the heap ending at leaf hi: the final check decides whether a pair has been
        pushed twice, and if none has the heap is good. */
    method Boot(lo: nat, hi: nat) returns (ok: bool)
      requires View() == B.ZeroHeap(top) && Linked()
      requires top > 0 && 0 < lo <= Pow2(top - 1) && lo <= hi < Pow2(top)
      modifies this, links
      ensures ok <==> B.NoClash(top, lo, hi, 0)
      ensures ok ==> View() == B.BootHeap(top, lo, hi) && Valid()
    {
      hide L.Rings, Inv, WithRange, SplitRange, Containing, B.Left, B.FreeList, B.Bits, B.Total, Pow2, B.NoClash;
      B.BootShape(top, lo, hi);
      Mark(0, lo);
      Mark(hi, Pow2(top));
      forall k | 0 <= k <= top
        ensures alloc[k] == B.Bits(top, lo, hi, k)
        ensures split[k] == if k > 0 then B.Bits(top, lo, hi, k) else B.NoBits(top, k)
      {
        MarkedTwice(top, lo, hi, k);
        SplitTwice(k, B.NoBits(top, k), Containing(0, k), B.Left(lo, k), Containing(hi, k), B.Left(Pow2(top), k));
      }
      var total := InitFree(lo, hi);
      B.FreeMemoryCheck(top, lo, hi);
      ok := total == hi - lo;
      if ok {
        B.BootInv(top, lo, hi);
        assert View().alloc == B.BootHeap(top, lo, hi).alloc && View().split == B.BootHeap(top, lo, hi).split;
        assert View().free == B.BootHeap(top, lo, hi).free;
      }
    }

    /** bd_init of `bytes` bytes of memory from a leaf boundary on: the number of orders,
        the metadata, and all that follows.  Not ok is the panic of the final check. */
    static method BdInit(bytes: nat) returns (ok: bool, a: Allocator)
      requires bytes > 256 && forall j: nat :: bytes != B.LEAF_SIZE * Pow2(j)
      ensures fresh(a) && fresh(a.links) && B.Sizes(bytes, a.top)
      ensures ok <==> bytes < 320 || bytes > 512
      ensures ok ==> a.Valid() && a.View() == B.BootHeap(a.top, B.MetaLeaves(a.top), bytes / B.LEAF_SIZE)
    {
      hide L.Rings, Inv, B.Total, B.NoClash, B.MetaLeaves;
      var top := B.MaxSize(bytes);
      a := new Allocator(top);
      B.InitParts(bytes, top);
      B.InitCheckIff(bytes, top);
      var lo, hi := B.MetaLeaves(top), bytes / B.LEAF_SIZE;
      B.FreeMemoryCheck(top, lo, hi);
      ok := a.Boot(lo, hi);
    }

    /** lst_pop of the first free block of order k, and its alloc bit. */
    method Take(k: nat) returns (p: nat)
      requires Valid() && k <= top && free[k] != []
      modifies this, links
      ensures old(In(View(), k, free[k][0])) && View() == Taken(old(View()), k) && Valid()
      ensures p == Addr(k, old(free[k][0]))
    {
      ghost var i, lists := free[k][0], AddrLists(free);
      TakenKeeps(View(), k);
      assert lists[k][0] == Addr(k, i);
      L.EmptyRing(links.next, links.prev, Heads(top)[k], lists[k]);
      p := links.next[HeadOf(top, k)];
      L.UnlinkKeepsRings(links.next, links.prev, Heads(top), lists, k, 0);
      links.Remove(p);
      AddrIndex(k, i);
      alloc := alloc[k := alloc[k][Containing(p, k) := true]];
      free := free[k := free[k][1..]];
      assert L.Without(lists[k], 0) == AddrList(k, free[k]);
      assert lists[k := L.Without(lists[k], 0)] == AddrLists(free);
    }

    /** One turn of the splitting loop of bd_malloc. */
    method Halve(k: nat, p: nat, ghost i: nat)
      requires Valid() && 0 < k <= top && In(View(), k, i) && Live(View(), k, i) && p == Addr(k, i)
      modifies this, links
      ensures Valid() && View() == Halved(old(View()), k, i)
    {
      ghost var h, lists := View(), AddrLists(free);
      HalvedKeeps(h, k, i);
      AddrHalves(k, i);
      AddrIndex(k, i);
      AddrIndex(k - 1, 2 * i);
      var q := p + Pow2(k - 1);
      forall j | 0 <= j < |Heads(top)|
        ensures q !in L.Nodes(Heads(top)[j], lists[j])
      {
        RightHalfFresh(h, k, i, j);
      }
      split := split[k := split[k][Containing(p, k) := true]];
      alloc := alloc[k - 1 := alloc[k - 1][Containing(p, k - 1) := true]];
      L.LinkKeepsRings(links.next, links.prev, Heads(top), lists, k - 1, q);
      links.Push(HeadOf(top, k - 1), q);
      free := free[k - 1 := [2 * i + 1] + free[k - 1]];
      assert [q] + lists[k - 1] == AddrList(k - 1, free[k - 1]);
      assert lists[k - 1 := [q] + lists[k - 1]] == AddrLists(free);
    }

    /** One turn of the joining loop of bd_free, the buddy being free. */
    method Join(k: nat, p: nat, ghost i: nat) returns (p': nat)
      requires Valid() && k < top && In(View(), k, i) && Live(View(), k, i) && p == Addr(k, i) && (k, i) != (0, 0)
      requires In(View(), k, BuddyOf(i)) && IsFree(View(), k, BuddyOf(i))
      modifies this, links
      ensures Valid() && View() == Joined(old(View()), k, i) && p' == Addr(k + 1, i / 2)
    {
      hide L.Rings, Inv, Addr, Containing, Without;
      ghost var h, b := View(), BuddyOf(i);
      ListedAt(h, k);
      JoinedKeeps(h, k, i);
      AddrIndex(k, i);
      AddrHalves(k + 1, i / 2);
      var bi := Containing(p, k);
      var buddy := if bi % 2 == 0 then bi + 1 else bi - 1;
      alloc := alloc[k := alloc[k][bi := false]];
      var q := Addr(k, buddy);
      RemoveFree(h, k, b, q);
      p' := if buddy % 2 == 0 then q else p;
      AddrIndex(k + 1, i / 2);
      split := split[k + 1 := split[k + 1][Containing(p', k + 1) := false]];
    }

    /** lst_remove of a free block, wherever it is on its list. */
    method RemoveFree(ghost h: Heap, k: nat, ghost b: nat, q: nat)
      requires Shape(h) && k <= top == h.top && Listed(h, k) && h.free == free
      requires L.Rings(links.next, links.prev, Heads(top), AddrLists(free))
      requires b in free[k] && q == Addr(k, b)
      modifies links, this`free
      ensures free == old(free)[k := Without(old(free[k]), b)]
      ensures L.Rings(links.next, links.prev, Heads(top), AddrLists(free))
    {
      hide L.Rings, L.Without, Without, Addr;
      ghost var lists := AddrLists(free);
      ghost var n :| 0 <= n < |free[k]| && free[k][n] == b;
      assert lists[k][n] == q;
      L.UnlinkKeepsRings(links.next, links.prev, Heads(top), lists, k, n);
      RemovedLists(free, k, b, n);
      links.Remove(q);
      free := free[k := Without(free[k], b)];
    }

    /** The end of bd_free: the buddy is in use, the block goes on its list. */
    method Release(k: nat, p: nat, ghost i: nat)
      requires Valid() && k < top && In(View(), k, i) && Live(View(), k, i) && p == Addr(k, i) && (k, i) != (0, 0)
      requires In(View(), k, BuddyOf(i)) && Used(View(), k, BuddyOf(i))
      modifies this, links
      ensures Valid() && View() == Released(old(View()), k, i)
    {
      ghost var h, lists := View(), AddrLists(free);
      assert NodeOk(h, k, i) && NodeOk(h, k, BuddyOf(i));
      ReleasedKeeps(h, k, i);
      AddrIndex(k, i);
      forall j | 0 <= j < |Heads(top)|
        ensures p !in L.Nodes(Heads(top)[j], lists[j])
      {
        LiveNotNode(h, k, i, j);
      }
      alloc := alloc[k := alloc[k][Containing(p, k) := false]];
      L.LinkKeepsRings(links.next, links.prev, Heads(top), lists, k, p);
      links.Push(HeadOf(top, k), p);
      free := free[k := [i] + free[k]];
      assert [p] + lists[k] == AddrList(k, free[k]);
      assert lists[k := [p] + lists[k]] == AddrLists(free);
    }

    /** firstk.  The size doubles in 64 bits without wrapping as long as the request
        is at most half of that range. */
    static method FirstK(nbytes: nat) returns (k: nat)
      requires nbytes <= 0x8000_0000_0000_0000
      ensures B.LEAF_SIZE * Pow2(k) >= nbytes
      ensures k > 0 ==> B.LEAF_SIZE * Pow2(k - 1) < nbytes
      ensures B.LEAF_SIZE * Pow2(k) < 0x1_0000_0000_0000_0000
    {
      k := 0;
      var size := B.LEAF_SIZE;
      while size < nbytes
        invariant size == B.LEAF_SIZE * Pow2(k) < 0x1_0000_0000_0000_0000
        invariant k > 0 ==> B.LEAF_SIZE * Pow2(k - 1) < nbytes
        decreases nbytes - size
      {
        k := k + 1;
        size := size * 2;
      }
    }

    /** The search loop of bd_malloc. */
    method FindOrder(fk: nat) returns (k: nat)
      requires Valid()
      ensures fk <= k && (k <= top ==> free[k] != [])
      ensures forall j :: fk <= j < k && j <= top ==> free[j] == []
    {
      k := fk;
      while k <= top
        invariant fk <= k && forall j :: fk <= j < k && j <= top ==> free[j] == []
      {
        L.EmptyRing(links.next, links.prev, Heads(top)[k], AddrLists(free)[k]);
        if links.next[HeadOf(top, k)] != HeadOf(top, k) {
          return;
        }
        k := k + 1;
      }
    }

    /** size: the order of the live block at p, from the split bits alone. */
    method Size(p: nat, ghost k: nat, ghost i: nat) returns (r: nat)
      requires Valid() && In(View(), k, i) && Live(View(), k, i) && p == Addr(k, i) && (k, i) != (0, 0)
      ensures r == k < top
    {
      r := 0;
      SplitBitsAbove(View(), k, i, 0);
      while !split[r + 1][Containing(p, r + 1)]
        invariant 0 <= r <= k < top && In(View(), r + 1, Containing(p, r + 1))
        invariant IsSplit(View(), r + 1, Containing(p, r + 1)) <==> r == k
        decreases k - r
      {
        r := r + 1;
        SplitBitsAbove(View(), k, i, r);
      }
    }

    /** bd_malloc.  `from` is the order of the free block that is used. */
    method Malloc(nbytes: nat) returns (ok: bool, p: nat, fk: nat, ghost from: nat)
      requires Valid() && nbytes <= 0x8000_0000_0000_0000
      modifies this, links
      ensures Valid()
      ensures B.LEAF_SIZE * Pow2(fk) >= nbytes && (fk > 0 ==> B.LEAF_SIZE * Pow2(fk - 1) < nbytes)
      ensures !ok ==> View() == old(View()) && forall j :: fk <= j <= top ==> free[j] == []
      ensures ok ==> fk <= from <= top && old(free[from]) != [] && forall j :: fk <= j < from ==> old(free[j]) == []
      ensures ok ==> old(In(View(), from, free[from][0])) && View() == Malloced(old(View()), from, fk)
      ensures ok ==> p == Addr(fk, Leftmost(from, fk, old(free[from][0])))
    {
      hide L.Rings, Addr, NodeOk, Listed;
      ok, p, from := false, 0, 0;
      fk := FirstK(nbytes);
      var k := FindOrder(fk);
      if k > top {
        return;
      }
      from := k;
      ghost var i := free[k][0];
      AddrLeftmost(k, fk, i);
      TakenKeeps(View(), k);
      p := Take(k);
      SplitTo(k, fk, p, i);
      ok := true;
    }

    /** The splitting loop of bd_malloc, from a live block of order `from` down to fk. */
    method SplitTo(from: nat, fk: nat, p: nat, ghost first: nat)
      requires Valid() && fk <= from <= top && In(View(), from, first)
      requires Live(View(), from, first) && p == Addr(from, first)
      modifies this, links
      ensures Valid() && View() == SplitDown(old(View()), from, fk, first)
    {
      hide L.Rings, Addr, NodeOk, Listed;
      var k := from;
      ghost var i := first;
      while k > fk
        invariant fk <= k <= from && Valid() && In(View(), k, i) && Live(View(), k, i) && p == Addr(k, i)
        invariant SplitDown(View(), k, fk, i) == SplitDown(old(View()), from, fk, first)
      {
        HalvedKeeps(View(), k, i);
        AddrHalves(k, i);
        Halve(k, p, i);
        k, i := k - 1, 2 * i;
      }
    }

    /** bd_free of a block that bd_malloc gave out. */
    method Free(p: nat, ghost k0: nat, ghost i0: nat)
      requires Valid() && In(View(), k0, i0) && Live(View(), k0, i0) && p == Addr(k0, i0) && (k0, i0) != (0, 0)
      modifies this, links
      ensures Valid() && View() == Freed(old(View()), k0, i0)
    {
      var k := Size(p, k0, i0);
      var q := p;
      ghost var i := i0;
      while true
        invariant k <= top && Valid() && In(View(), k, i) && Live(View(), k, i) && q == Addr(k, i) && (k, i) != (0, 0)
        invariant Freed(View(), k, i) == Freed(old(View()), k0, i0)
        decreases top - k
      {
        FreedUnfolds(View(), k, i);
        AddrIndex(k, i);
        var bi := Containing(q, k);
        var buddy := if bi % 2 == 0 then bi + 1 else bi - 1;
        if alloc[k][buddy] {
          break;
        }
        q := Join(k, q, i);
        k, i := k + 1, i / 2;
      }
      Release(k, q, i);
    }
  }

  lemma FreedUnfolds(h: Heap, k: nat, i: nat)
    requires Inv(h) && In(h, k, i) && Live(h, k, i) && (k, i) != (0, 0)
    ensures k < h.top && In(h, k, BuddyOf(i)) && In(h, k + 1, i / 2)
    ensures Used(h, k, BuddyOf(i)) ==> Freed(h, k, i) == Released(h, k, i)
    ensures !Used(h, k, BuddyOf(i)) ==>
      && IsFree(h, k, BuddyOf(i)) && Inv(Joined(h, k, i)) && Live(Joined(h, k, i), k + 1, i / 2)
      && Freed(h, k, i) == Freed(Joined(h, k, i), k + 1, i / 2)
  {
    FirstLeafSplits(h, k);
    assert NodeOk(h, k, i) && NodeOk(h, k, BuddyOf(i));
    if !Used(h, k, BuddyOf(i)) {
      JoinedKeeps(h, k, i);
    }
  }

  lemma LiveNotNode(h: Heap, k: nat, i: nat, j: nat)
    requires Inv(h) && In(h, k, i) && Live(h, k, i) && j <= h.top
    ensures Addr(k, i) !in L.Nodes(Heads(h.top)[j], AddrLists(h.free)[j])
  {
    assert NodeOk(h, k, i);
    forall m | In(h, j, m) && IsFree(h, j, m)
      ensures Addr(j, m) != Addr(k, i)
    {
      LiveApartFromFree(h, k, i, j, m);
    }
    NotANode(h, k, i, j);
  }

  lemma {:induction false} WithoutAt(s: seq<nat>, x: nat, n: nat)
    requires n < |s| && s[n] == x && forall a, b :: 0 <= a < b < |s| ==> s[a] != s[b]
    ensures Without(s, x) == L.Without(s, n)
  {
    if n > 0 {
      WithoutAt(s[1..], x, n - 1);
    }
  }

  lemma RightHalfFresh(h: Heap, k: nat, i: nat, j: nat)
    requires Inv(h) && 0 < k <= h.top && In(h, k, i) && Live(h, k, i) && j <= h.top
    ensures Addr(k - 1, 2 * i + 1) !in L.Nodes(Heads(h.top)[j], AddrLists(h.free)[j])
  {
    NoHalves(h, k, i);
    forall m | In(h, j, m) && IsFree(h, j, m)
      ensures Addr(j, m) != Addr(k - 1, 2 * i + 1)
    {
      LiveApartFromFree(h, k, i, j, m);
    }
    NotANode(h, k - 1, 2 * i + 1, j);
  }
}
