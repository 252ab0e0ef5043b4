/** The buddy allocator of kernel/buddy.c: bd_malloc, size and bd_free.

    Memory is counted in leaves of LEAF_SIZE bytes from bd_base.  Block (k, i) is the
    i-th block of order k; it halves into (k-1, 2i) and (k-1, 2i+1).  The state is the
    alloc and split bits and the free lists, one of each for every order; `top` is
    MAXSIZE.  What every operation keeps is local to one block, its parent and its
    buddy; that the blocks tile the heap is then a theorem. */
module Buddy {

  datatype Heap = Heap(top: nat, alloc: seq<seq<bool>>, split: seq<seq<bool>>, free: seq<seq<nat>>)

  /** There are twice as many blocks at each order as at the next. */
  predicate Shape(h: Heap) {
    && |h.alloc| == h.top + 1 && |h.split| == h.top + 1 && |h.free| == h.top + 1
    && |h.alloc[h.top]| == 1
    && (forall k :: 0 <= k < h.top ==> |h.alloc[k]| == 2 * |h.alloc[k + 1]|)
    && (forall k :: 0 <= k <= h.top ==> |h.split[k]| == |h.alloc[k]|)
  }

  predicate In(h: Heap, k: nat, i: nat)
    requires Shape(h)
  {
    k <= h.top && i < |h.alloc[k]|
  }

  /** The alloc bit: the block is handed out, or part of it is. */
  predicate Used(h: Heap, k: nat, i: nat)
    requires Shape(h) && In(h, k, i)
  {
    h.alloc[k][i]
  }

  predicate IsSplit(h: Heap, k: nat, i: nat)
    requires Shape(h) && In(h, k, i)
  {
    k > 0 && h.split[k][i]
  }

  predicate IsFree(h: Heap, k: nat, i: nat)
    requires Shape(h) && In(h, k, i)
  {
    i in h.free[k]
  }

  /** Handed out as one block of this order. */
  predicate Live(h: Heap, k: nat, i: nat)
    requires Shape(h) && In(h, k, i)
  {
    Used(h, k, i) && !IsSplit(h, k, i)
  }

  function BuddyOf(i: nat): nat {
    if i % 2 == 0 then i + 1 else i - 1
  }

  /** What holds of block (k, i): only a split block has used or free halves, then
      both are, and not both are free. */
  predicate NodeOk(h: Heap, k: nat, i: nat)
    requires Shape(h) && In(h, k, i)
  {
    && (IsSplit(h, k, i) ==> Used(h, k, i))
    && (IsFree(h, k, i) ==> !Used(h, k, i))
    && (k == h.top ==> Used(h, k, i) || IsFree(h, k, i))
    && (k < h.top ==>
          && In(h, k + 1, i / 2) && In(h, k, BuddyOf(i))
          && (IsSplit(h, k + 1, i / 2) <==> Used(h, k, i) || IsFree(h, k, i))
          && (IsFree(h, k, i) ==> !IsFree(h, k, BuddyOf(i))))
  }

  predicate Listed(h: Heap, k: nat)
    requires Shape(h) && k <= h.top
  {
    && (forall n :: 0 <= n < |h.free[k]| ==> h.free[k][n] < |h.alloc[k]|)
    && (forall n, m :: 0 <= n < m < |h.free[k]| ==> h.free[k][n] != h.free[k][m])
  }

  ghost predicate Inv(h: Heap) {
    && Shape(h)
    && (forall k :: 0 <= k <= h.top ==> Listed(h, k))
    && (forall k, i :: 0 <= k <= h.top && 0 <= i < |h.alloc[k]| ==> NodeOk(h, k, i))
    && In(h, 0, 0) && Used(h, 0, 0)   // the allocator's own data start at leaf 0
  }

  // ----- The four elementary steps -----

  /** Pop the first free block of order k and hand it out whole. */
  function Taken(h: Heap, k: nat): Heap
    requires Shape(h) && k <= h.top && h.free[k] != [] && In(h, k, h.free[k][0])
  {
    h.(free := h.free[k := h.free[k][1..]], alloc := h.alloc[k := h.alloc[k][h.free[k][0] := true]])
  }

  /** Split a block that is handed out: keep its left half, free its right half. */
  function Halved(h: Heap, k: nat, i: nat): Heap
    requires Shape(h) && 0 < k <= h.top && In(h, k, i)
  {
    h.(split := h.split[k := h.split[k][i := true]],
       alloc := h.alloc[k - 1 := h.alloc[k - 1][2 * i := true]],
       free := h.free[k - 1 := [2 * i + 1] + h.free[k - 1]])
  }

  function Without(s: seq<nat>, x: nat): seq<nat> {
    if s == [] then [] else if s[0] == x then s[1..] else [s[0]] + Without(s[1..], x)
  }

  /** Join a block being freed with its free buddy into their parent, handed out. */
  function Joined(h: Heap, k: nat, i: nat): Heap
    requires Shape(h) && k < h.top && In(h, k, i)
  {
    h.(alloc := h.alloc[k := h.alloc[k][i := false]],
       free := h.free[k := Without(h.free[k], BuddyOf(i))],
       split := h.split[k + 1 := h.split[k + 1][i / 2 := false]])
  }

  /** Put a block whose buddy is in use on its free list. */
  function Released(h: Heap, k: nat, i: nat): Heap
    requires Shape(h) && In(h, k, i)
  {
    h.(alloc := h.alloc[k := h.alloc[k][i := false]], free := h.free[k := [i] + h.free[k]])
  }

  lemma TakenKeeps(h: Heap, k: nat)
    requires Inv(h) && k <= h.top && h.free[k] != []
    ensures In(h, k, h.free[k][0]) && Inv(Taken(h, k)) && Live(Taken(h, k), k, h.free[k][0])
  {
    assert Listed(h, k);
    var i := h.free[k][0];
    var t := Taken(h, k);
    assert forall x :: x in h.free[k] <==> x == i || x in t.free[k];
    assert i !in t.free[k];
    assert NodeOk(h, k, i);
    forall j, m | 0 <= j <= t.top && 0 <= m < |t.alloc[j]|
      ensures NodeOk(t, j, m)
    {
      assert NodeOk(h, j, m);
    }
    forall j | 0 <= j <= t.top
      ensures Listed(t, j)
    {
      assert Listed(h, j);
    }
  }

  /** The halves of a block that is not split are neither used nor free. */
  lemma NoHalves(h: Heap, k: nat, i: nat)
    requires Inv(h) && 0 < k <= h.top && In(h, k, i) && !IsSplit(h, k, i)
    ensures In(h, k - 1, 2 * i) && In(h, k - 1, 2 * i + 1)
    ensures !Used(h, k - 1, 2 * i) && !Used(h, k - 1, 2 * i + 1)
    ensures !IsFree(h, k - 1, 2 * i) && !IsFree(h, k - 1, 2 * i + 1)
  {
    assert NodeOk(h, k - 1, 2 * i) && NodeOk(h, k - 1, 2 * i + 1);
  }

  /** The bits and lists of (j, m) after a split of (k, i). */
  lemma HalvedBits(h: Heap, k: nat, i: nat, j: nat, m: nat)
    requires Shape(h) && 0 < k <= h.top && In(h, k, i) && In(h, j, m)
    ensures var t := Halved(h, k, i);
      && Shape(t) && In(t, j, m)
      && (Used(t, j, m) <==> (j, m) == (k - 1, 2 * i) || Used(h, j, m))
      && (IsSplit(t, j, m) <==> (j, m) == (k, i) || IsSplit(h, j, m))
      && (IsFree(t, j, m) <==> (j, m) == (k - 1, 2 * i + 1) || IsFree(h, j, m))
  {
  }

  lemma HalvedNode(h: Heap, k: nat, i: nat, j: nat, m: nat)
    requires Inv(h) && 0 < k <= h.top && In(h, k, i) && Live(h, k, i) && In(h, j, m)
    ensures Shape(Halved(h, k, i)) && NodeOk(Halved(h, k, i), j, m)
  {
    NoHalves(h, k, i);
    assert NodeOk(h, j, m);
    HalvedBits(h, k, i, j, m);
    if j < h.top {
      HalvedBits(h, k, i, j + 1, m / 2);
      HalvedBits(h, k, i, j, BuddyOf(m));
    }
  }

  lemma HalvedKeeps(h: Heap, k: nat, i: nat)
    requires Inv(h) && 0 < k <= h.top && In(h, k, i) && Live(h, k, i)
    ensures Inv(Halved(h, k, i)) && In(Halved(h, k, i), k - 1, 2 * i) && Live(Halved(h, k, i), k - 1, 2 * i)
  {
    NoHalves(h, k, i);
    HalvedBits(h, k, i, k - 1, 2 * i);
    HalvedBits(h, k, i, 0, 0);
    assert NodeOk(h, k - 1, 2 * i);
    var t := Halved(h, k, i);
    forall j, m | 0 <= j <= t.top && 0 <= m < |t.alloc[j]|
      ensures NodeOk(t, j, m)
    {
      HalvedNode(h, k, i, j, m);
    }
    forall j | 0 <= j <= t.top
      ensures Listed(t, j)
    {
      assert Listed(h, j);
    }
  }

  lemma {:induction false} WithoutMember(s: seq<nat>, x: nat)
    requires forall n, m :: 0 <= n < m < |s| ==> s[n] != s[m]
    ensures forall y :: y in Without(s, x) <==> y in s && y != x
    ensures forall n, m :: 0 <= n < m < |Without(s, x)| ==> Without(s, x)[n] != Without(s, x)[m]
  {
    if s != [] {
      WithoutMember(s[1..], x);
      assert s == [s[0]] + s[1..];
      assert s[0] !in s[1..];
      if s[0] != x {
        assert Without(s, x) == [s[0]] + Without(s[1..], x);
      }
    }
  }

  lemma JoinedBits(h: Heap, k: nat, i: nat, j: nat, m: nat)
    requires Shape(h) && k < h.top && In(h, k, i) && In(h, j, m) && Listed(h, k)
    ensures var t := Joined(h, k, i);
      && Shape(t) && In(t, j, m)
      && (Used(t, j, m) <==> (j, m) != (k, i) && Used(h, j, m))
      && (IsSplit(t, j, m) <==> (j, m) != (k + 1, i / 2) && IsSplit(h, j, m))
      && (IsFree(t, j, m) <==> (j, m) != (k, BuddyOf(i)) && IsFree(h, j, m))
  {
    WithoutMember(h.free[k], BuddyOf(i));
  }

  lemma JoinedNode(h: Heap, k: nat, i: nat, j: nat, m: nat)
    requires Inv(h) && k < h.top && In(h, k, i) && Live(h, k, i) && In(h, j, m)
    requires In(h, k, BuddyOf(i)) && IsFree(h, k, BuddyOf(i))
    ensures Shape(Joined(h, k, i)) && NodeOk(Joined(h, k, i), j, m)
  {
    assert NodeOk(h, k, i) && NodeOk(h, k, BuddyOf(i)) && NodeOk(h, k + 1, i / 2);
    assert Listed(h, k) && NodeOk(h, j, m);
    JoinedBits(h, k, i, j, m);
    if j < h.top {
      JoinedBits(h, k, i, j + 1, m / 2);
      JoinedBits(h, k, i, j, BuddyOf(m));
    }
  }

  lemma JoinedKeeps(h: Heap, k: nat, i: nat)
    requires Inv(h) && k < h.top && In(h, k, i) && Live(h, k, i) && (k, i) != (0, 0)
    requires In(h, k, BuddyOf(i)) && IsFree(h, k, BuddyOf(i))
    ensures Inv(Joined(h, k, i)) && In(h, k + 1, i / 2) && Live(Joined(h, k, i), k + 1, i / 2)
  {
    assert Listed(h, k) && NodeOk(h, k, i) && NodeOk(h, k + 1, i / 2);
    JoinedBits(h, k, i, k + 1, i / 2);
    JoinedBits(h, k, i, 0, 0);
    WithoutMember(h.free[k], BuddyOf(i));
    var t := Joined(h, k, i);
    forall j, m | 0 <= j <= t.top && 0 <= m < |t.alloc[j]|
      ensures NodeOk(t, j, m)
    {
      JoinedNode(h, k, i, j, m);
    }
    forall j | 0 <= j <= t.top
      ensures Listed(t, j)
    {
      assert Listed(h, j);
      assert j == k ==> forall n :: 0 <= n < |t.free[k]| ==> t.free[k][n] in h.free[k];
    }
  }

  lemma ReleasedShape(h: Heap, k: nat, i: nat)
    requires Shape(h) && In(h, k, i)
    ensures var t := Released(h, k, i); Shape(t) && t.top == h.top
    ensures forall j :: 0 <= j <= h.top ==> |Released(h, k, i).alloc[j]| == |h.alloc[j]|
  {
  }

  lemma ReleasedNode(h: Heap, k: nat, i: nat, j: nat, m: nat)
    requires Inv(h) && k < h.top && In(h, k, i) && Live(h, k, i) && (k, i) != (0, 0) && In(h, j, m)
    requires In(h, k, BuddyOf(i)) && !IsFree(h, k, BuddyOf(i))
    ensures Shape(Released(h, k, i)) && NodeOk(Released(h, k, i), j, m)
  {
    hide Listed;
    assert NodeOk(h, k, i) && NodeOk(h, j, m);
    assert forall x :: x in Released(h, k, i).free[k] <==> x == i || x in h.free[k];
  }

  lemma ReleasedListed(h: Heap, k: nat, i: nat, j: nat)
    requires Inv(h) && In(h, k, i) && Live(h, k, i) && j <= h.top
    ensures Shape(Released(h, k, i)) && Listed(Released(h, k, i), j)
  {
    assert NodeOk(h, k, i) && Listed(h, j);
    assert i !in h.free[k];
    assert forall n :: 0 <= n < |h.free[j]| ==> h.free[j][n] in h.free[j];
  }

  lemma ReleasedKeeps(h: Heap, k: nat, i: nat)
    requires Inv(h) && k < h.top && In(h, k, i) && Live(h, k, i) && (k, i) != (0, 0)
    requires In(h, k, BuddyOf(i)) && !IsFree(h, k, BuddyOf(i))
    ensures Inv(Released(h, k, i))
  {
    hide Listed, NodeOk;
    var t := Released(h, k, i);
    ReleasedShape(h, k, i);
    forall j, m | 0 <= j <= t.top && 0 <= m < |t.alloc[j]|
      ensures NodeOk(t, j, m)
    {
      ReleasedNode(h, k, i, j, m);
    }
    forall j | 0 <= j <= t.top
      ensures Listed(t, j)
    {
      ReleasedListed(h, k, i, j);
    }
  }

  // ----- The free and live blocks tile the heap -----

  /** The block of order k that leaf x lies in. */
  function Containing(x: nat, k: nat): nat {
    if k == 0 then x else Containing(x, k - 1) / 2
  }

  lemma {:induction false} ContainingIn(h: Heap, x: nat, k: nat)
    requires Shape(h) && In(h, 0, x) && k <= h.top
    ensures In(h, k, Containing(x, k))
  {
    if k > 0 {
      ContainingIn(h, x, k - 1);
    }
  }

  /** Leaf x lies in a free or a live block of order k. */
  predicate Covers(h: Heap, k: nat, x: nat)
    requires Shape(h) && k <= h.top && In(h, k, Containing(x, k))
  {
    IsFree(h, k, Containing(x, k)) || Live(h, k, Containing(x, k))
  }

  lemma {:induction false} NothingBelow(h: Heap, x: nat, k: nat, j: nat)
    requires Inv(h) && In(h, 0, x) && j < k <= h.top
    requires In(h, k, Containing(x, k)) && !IsSplit(h, k, Containing(x, k))
    ensures In(h, j, Containing(x, j))
    ensures !Used(h, j, Containing(x, j)) && !IsFree(h, j, Containing(x, j)) && !IsSplit(h, j, Containing(x, j))
    decreases k - j
  {
    ContainingIn(h, x, j);
    ContainingIn(h, x, j + 1);
    assert Containing(x, j + 1) == Containing(x, j) / 2;
    assert NodeOk(h, j, Containing(x, j));
    if j + 1 < k {
      NothingBelow(h, x, k, j + 1);
    }
  }

  lemma {:induction false} FindCover(h: Heap, x: nat, k: nat) returns (j: nat)
    requires Inv(h) && In(h, 0, x) && k <= h.top && In(h, k, Containing(x, k))
    requires Used(h, k, Containing(x, k)) || IsFree(h, k, Containing(x, k))
    ensures j <= k && In(h, j, Containing(x, j)) && Covers(h, j, x)
  {
    if Covers(h, k, x) {
      j := k;
    } else {
      ContainingIn(h, x, k - 1);
      assert Containing(x, k) == Containing(x, k - 1) / 2;
      assert NodeOk(h, k - 1, Containing(x, k - 1));
      j := FindCover(h, x, k - 1);
    }
  }

  /** Every leaf of the heap lies in exactly one free or live block. */
  lemma {:induction false} Tiling(h: Heap, x: nat) returns (k: nat)
    requires Inv(h) && In(h, 0, x)
    ensures k <= h.top && In(h, k, Containing(x, k)) && Covers(h, k, x)
    ensures forall j :: 0 <= j <= h.top && j != k ==> In(h, j, Containing(x, j)) && !Covers(h, j, x)
  {
    ContainingIn(h, x, h.top);
    assert NodeOk(h, h.top, Containing(x, h.top));
    k := FindCover(h, x, h.top);
    forall j | 0 <= j <= h.top && j != k
      ensures In(h, j, Containing(x, j)) && !Covers(h, j, x)
    {
      ContainingIn(h, x, j);
      assert NodeOk(h, j, Containing(x, j)) && NodeOk(h, k, Containing(x, k));
      if j < k {
        NothingBelow(h, x, k, j);
      } else if Covers(h, j, x) {
        NothingBelow(h, x, j, k);
      }
    }
  }

  /** Leaf 0 is never given back, so no block that holds it is ever whole. */
  lemma {:induction false} FirstLeafSplits(h: Heap, k: nat)
    requires Inv(h) && k <= h.top
    ensures In(h, k, 0) && Used(h, k, 0) && !IsFree(h, k, 0) && (k > 0 ==> IsSplit(h, k, 0))
  {
    if k > 0 {
      FirstLeafSplits(h, k - 1);
      assert NodeOk(h, k - 1, 0);
    }
    assert NodeOk(h, k, 0);
  }

  // ----- bd_malloc and bd_free -----

  /** Split (k, i) down to order fk, keeping the leftmost part. */
  function SplitDown(h: Heap, k: nat, fk: nat, i: nat): Heap
    requires Shape(h) && fk <= k <= h.top && In(h, k, i)
    decreases k
  {
    if k == fk then h else SplitDown(Halved(h, k, i), k - 1, fk, 2 * i)
  }

  /** The leftmost block of order fk inside (k, i). */
  function Leftmost(k: nat, fk: nat, i: nat): nat
    requires fk <= k
    decreases k
  {
    if k == fk then i else Leftmost(k - 1, fk, 2 * i)
  }

  lemma {:induction false} SplitDownKeeps(h: Heap, k: nat, fk: nat, i: nat)
    requires Inv(h) && fk <= k <= h.top && In(h, k, i) && Live(h, k, i)
    ensures var t, j := SplitDown(h, k, fk, i), Leftmost(k, fk, i);
      Inv(t) && t.top == h.top && In(t, fk, j) && Live(t, fk, j)
    decreases k
  {
    if k > fk {
      HalvedKeeps(h, k, i);
      SplitDownKeeps(Halved(h, k, i), k - 1, fk, 2 * i);
    }
  }

  /** bd_malloc once it has found a free block of order k for a request of order fk. */
  function Malloced(h: Heap, k: nat, fk: nat): Heap
    requires Shape(h) && fk <= k <= h.top && h.free[k] != [] && In(h, k, h.free[k][0])
  {
    SplitDown(Taken(h, k), k, fk, h.free[k][0])
  }

  /** bd_free from order k on: join with free buddies, then put on a list. */
  function Freed(h: Heap, k: nat, i: nat): Heap
    requires Inv(h) && In(h, k, i) && Live(h, k, i) && (k, i) != (0, 0)
    decreases h.top - k
  {
    FirstLeafSplits(h, k);
    assert k < h.top;
    assert NodeOk(h, k, i) && NodeOk(h, k, BuddyOf(i));
    if Used(h, k, BuddyOf(i)) then Released(h, k, i)
    else
      JoinedKeeps(h, k, i);
      Freed(Joined(h, k, i), k + 1, i / 2)
  }

  lemma HalvedLive(h: Heap, k: nat, i: nat, j: nat, m: nat)
    requires Inv(h) && 0 < k <= h.top && In(h, k, i) && Live(h, k, i) && In(h, j, m)
    ensures Shape(Halved(h, k, i)) && In(Halved(h, k, i), j, m)
    ensures Live(Halved(h, k, i), j, m) <==> (j, m) == (k - 1, 2 * i) || ((j, m) != (k, i) && Live(h, j, m))
  {
    NoHalves(h, k, i);
    HalvedBits(h, k, i, j, m);
    assert NodeOk(h, k - 1, 2 * i);
  }

  lemma {:induction false} SplitDownLive(h: Heap, k: nat, fk: nat, i: nat, j: nat, m: nat)
    requires Inv(h) && fk <= k <= h.top && In(h, k, i) && Live(h, k, i) && In(h, j, m)
    ensures var t := SplitDown(h, k, fk, i);
      && Shape(t) && In(t, j, m)
      && (Live(t, j, m) <==> (j, m) == (fk, Leftmost(k, fk, i)) || ((j, m) != (k, i) && Live(h, j, m)))
    decreases k
  {
    if k > fk {
      HalvedKeeps(h, k, i);
      HalvedLive(h, k, i, j, m);
      SplitDownLive(Halved(h, k, i), k - 1, fk, 2 * i, j, m);
      NoHalves(h, k, i);
    }
  }

  /** bd_malloc keeps the invariant and adds exactly one live block, of the order
      asked for; every other live block stays as it is. */
  lemma MallocedSpec(h: Heap, k: nat, fk: nat, j: nat, m: nat)
    requires Inv(h) && fk <= k <= h.top && h.free[k] != [] && In(h, j, m)
    ensures In(h, k, h.free[k][0])
    ensures var t, got := Malloced(h, k, fk), Leftmost(k, fk, h.free[k][0]);
      && Inv(t) && t.top == h.top && In(t, fk, got) && Live(t, fk, got) && (fk, got) != (0, 0)
      && In(t, j, m) && (Live(t, j, m) <==> (j, m) == (fk, got) || Live(h, j, m))
      && In(h, fk, got) && !Live(h, fk, got)
  {
    assert Listed(h, k);
    var i := h.free[k][0];
    TakenKeeps(h, k);
    SplitDownKeeps(Taken(h, k), k, fk, i);
    SplitDownLive(Taken(h, k), k, fk, i, j, m);
    assert NodeOk(h, k, i);
    LeftmostFresh(h, k, fk, i);
    FirstLeafSplits(h, k);
  }

  /** The parts of a free block are not in use, and do not include leaf 0. */
  lemma {:induction false} LeftmostFresh(h: Heap, k: nat, fk: nat, i: nat)
    requires Inv(h) && fk <= k <= h.top && In(h, k, i) && !IsSplit(h, k, i) && !Used(h, k, i)
    ensures In(h, fk, Leftmost(k, fk, i)) && !Used(h, fk, Leftmost(k, fk, i))
    decreases k
  {
    if k > fk {
      NoHalves(h, k, i);
      assert NodeOk(h, k - 1, 2 * i);
      LeftmostFresh(h, k - 1, fk, 2 * i);
    }
  }

  lemma ReleasedLive(h: Heap, k: nat, i: nat, j: nat, m: nat)
    requires Shape(h) && In(h, k, i) && In(h, j, m)
    ensures Shape(Released(h, k, i)) && In(Released(h, k, i), j, m)
    ensures Live(Released(h, k, i), j, m) <==> (j, m) != (k, i) && Live(h, j, m)
  {
  }

  lemma JoinedLive(h: Heap, k: nat, i: nat, j: nat, m: nat)
    requires Inv(h) && k < h.top && In(h, k, i) && In(h, j, m) && Live(h, k, i)
    ensures Shape(Joined(h, k, i)) && In(Joined(h, k, i), j, m) && In(h, k + 1, i / 2) && !Live(h, k + 1, i / 2)
    ensures Live(Joined(h, k, i), j, m) <==> (j, m) == (k + 1, i / 2) || ((j, m) != (k, i) && Live(h, j, m))
  {
    assert Listed(h, k) && NodeOk(h, k, i) && NodeOk(h, k + 1, i / 2);
    JoinedBits(h, k, i, j, m);
  }

  /** bd_free keeps the invariant and takes away exactly the block given. */
  lemma {:induction false} FreedSpec(h: Heap, k: nat, i: nat, j: nat, m: nat)
    requires Inv(h) && In(h, k, i) && Live(h, k, i) && (k, i) != (0, 0) && In(h, j, m)
    ensures var t := Freed(h, k, i);
      && Inv(t) && t.top == h.top && In(t, j, m)
      && (Live(t, j, m) <==> (j, m) != (k, i) && Live(h, j, m))
    decreases h.top - k
  {
    FirstLeafSplits(h, k);
    assert NodeOk(h, k, i) && NodeOk(h, k, BuddyOf(i));
    if Used(h, k, BuddyOf(i)) {
      ReleasedKeeps(h, k, i);
      ReleasedLive(h, k, i, j, m);
    } else {
      JoinedKeeps(h, k, i);
      JoinedLive(h, k, i, j, m);
      FreedSpec(Joined(h, k, i), k + 1, i / 2, j, m);
    }
  }

  // ----- bd_free undoes bd_malloc -----

  lemma JoinUndoesHalve(h: Heap, k: nat, i: nat)
    requires Inv(h) && 0 < k <= h.top && In(h, k, i) && Live(h, k, i)
    ensures Shape(Halved(h, k, i)) && In(Halved(h, k, i), k - 1, 2 * i) && Joined(Halved(h, k, i), k - 1, 2 * i) == h
  {
    NoHalves(h, k, i);
    var t := Halved(h, k, i);
    var u := Joined(t, k - 1, 2 * i);
    assert u.alloc[k - 1] == h.alloc[k - 1];
    assert u.alloc == h.alloc;
    assert u.split[k] == h.split[k];
    assert u.split == h.split;
    assert t.free[k - 1][0] == 2 * i + 1;
    assert u.free[k - 1] == h.free[k - 1];
    assert u.free == h.free;
  }

  lemma {:induction false} FreeUndoesSplits(h: Heap, k: nat, fk: nat, i: nat)
    requires Inv(h) && fk <= k <= h.top && In(h, k, i) && Live(h, k, i) && (k, i) != (0, 0)
    requires (fk, Leftmost(k, fk, i)) != (0, 0)
    ensures var t, j := SplitDown(h, k, fk, i), Leftmost(k, fk, i);
      Inv(t) && In(t, fk, j) && Live(t, fk, j) && Freed(t, fk, j) == Freed(h, k, i)
    decreases k
  {
    SplitDownKeeps(h, k, fk, i);
    if k > fk {
      var t := Halved(h, k, i);
      HalvedKeeps(h, k, i);
      FreeUndoesSplits(t, k - 1, fk, 2 * i);
      HalvedBits(h, k, i, k - 1, 2 * i + 1);
      NoHalves(h, k, i);
      JoinUndoesHalve(h, k, i);
      assert Freed(t, k - 1, 2 * i) == Freed(h, k, i);
    }
  }

  /** Freeing what bd_malloc has just returned restores the whole state: both
      bitmaps and every free list, in order. */
  lemma FreeUndoesMalloc(h: Heap, k: nat, fk: nat)
    requires Inv(h) && fk <= k <= h.top && h.free[k] != []
    ensures In(h, k, h.free[k][0])
    ensures var t, j := Malloced(h, k, fk), Leftmost(k, fk, h.free[k][0]);
      Inv(t) && In(t, fk, j) && Live(t, fk, j) && (fk, j) != (0, 0) && Freed(t, fk, j) == h
  {
    MallocedSpec(h, k, fk, 0, 0);
    FreeUndoesTake(h, k);
    FreeUndoesSplits(Taken(h, k), k, fk, h.free[k][0]);
  }

  lemma FreeUndoesTake(h: Heap, k: nat)
    requires Inv(h) && k <= h.top && h.free[k] != []
    ensures In(h, k, h.free[k][0]) && (k, h.free[k][0]) != (0, 0)
    ensures var t, i := Taken(h, k), h.free[k][0]; Inv(t) && Live(t, k, i) && Freed(t, k, i) == h
  {
    TakenKeeps(h, k);
    var i, t := h.free[k][0], Taken(h, k);
    FirstLeafSplits(h, k);
    assert NodeOk(h, k, i) && NodeOk(h, k, BuddyOf(i));
    var u := Released(t, k, i);
    assert u.alloc[k] == h.alloc[k];
    assert u.alloc == h.alloc;
    assert u.free[k] == h.free[k];
    assert u.free == h.free;
  }

  // ----- Addresses -----

  function Pow2(k: nat): (p: nat)
    ensures p > 0
  {
    if k == 0 then 1 else 2 * Pow2(k - 1)
  }

  /** addr(k, i), in leaves from bd_base. */
  function Addr(k: nat, i: nat): nat {
    i * Pow2(k)
  }

  lemma AddrHalves(k: nat, i: nat)
    requires k > 0
    ensures Addr(k, i) == Addr(k - 1, 2 * i)
    ensures Addr(k, i) + Pow2(k - 1) == Addr(k - 1, 2 * i + 1)
  {
  }

  lemma {:induction false} Contains(x: nat, k: nat)
    ensures Addr(k, Containing(x, k)) <= x < Addr(k, Containing(x, k)) + Pow2(k)
  {
    if k > 0 {
      Contains(x, k - 1);
      AddrHalves(k, Containing(x, k));
    }
  }

  lemma MulMono(a: nat, b: nat, d: nat)
    requires a <= b
    ensures a * d <= b * d
  {
    assert b * d == a * d + (b - a) * d;
  }

  lemma Quotient(x: nat, d: nat, q: nat)
    requires d > 0 && q * d <= x < q * d + d
    ensures x / d == q
  {
    var n := x / d;
    assert x == n * d + x % d && (n + 1) * d == n * d + d && (q + 1) * d == q * d + d;
    if n < q {
      MulMono(n + 1, q, d);
    } else if n > q {
      MulMono(q + 1, n, d);
    }
  }

  /** `Containing` is the quotient that blk_index computes, and a block's leaves are
      the Pow2(k) from its address on. */
  lemma ContainingIsQuotient(x: nat, k: nat, i: nat)
    ensures Containing(x, k) == x / Pow2(k)
    ensures Containing(x, k) == i <==> Addr(k, i) <= x < Addr(k, i) + Pow2(k)
  {
    Contains(x, k);
    Quotient(x, Pow2(k), Containing(x, k));
    if Addr(k, i) <= x < Addr(k, i) + Pow2(k) {
      Quotient(x, Pow2(k), i);
    }
  }

  lemma AddrIndex(k: nat, i: nat)
    ensures Containing(Addr(k, i), k) == i && Containing(Addr(k, i), k + 1) == i / 2
  {
    ContainingIsQuotient(Addr(k, i), k, i);
  }

  lemma {:induction false} AddrLeftmost(k: nat, j: nat, i: nat)
    requires j <= k
    ensures Addr(k, i) == Addr(j, Leftmost(k, j, i)) && Containing(Addr(k, i), j) == Leftmost(k, j, i)
    decreases k
  {
    if j < k {
      AddrHalves(k, i);
      AddrLeftmost(k - 1, j, 2 * i);
    } else {
      AddrIndex(k, i);
    }
  }

  lemma {:induction false} LevelSize(h: Heap, k: nat)
    requires Shape(h) && k <= h.top
    ensures |h.alloc[k]| == Pow2(h.top - k)
    decreases h.top - k
  {
    if k < h.top {
      LevelSize(h, k + 1);
    }
  }

  /** Two live blocks with a leaf in common are the same block. */
  lemma LiveDisjoint(h: Heap, k: nat, i: nat, j: nat, m: nat, x: nat)
    requires Inv(h) && In(h, k, i) && In(h, j, m) && Live(h, k, i) && Live(h, j, m)
    requires Addr(k, i) <= x < Addr(k, i) + Pow2(k) && Addr(j, m) <= x < Addr(j, m) + Pow2(j)
    requires In(h, 0, x)
    ensures (k, i) == (j, m)
  {
    ContainingIsQuotient(x, k, i);
    ContainingIsQuotient(x, j, m);
    var c := Tiling(h, x);
  }

  /** The split bits above a live block's address: set first just above its order. */
  lemma SplitBitsAbove(h: Heap, k: nat, i: nat, j: nat)
    requires Inv(h) && In(h, k, i) && Live(h, k, i) && (k, i) != (0, 0) && j <= k
    ensures k < h.top && In(h, j + 1, Containing(Addr(k, i), j + 1))
    ensures IsSplit(h, j + 1, Containing(Addr(k, i), j + 1)) <==> j == k
  {
    FirstLeafSplits(h, k);
    assert NodeOk(h, k, i);
    AddrIndex(k, i);
    if j < k {
      AddrLeftmost(k, j + 1, i);
      LeftmostUnsplit(h, k, j + 1, i);
    }
  }

  lemma {:induction false} LeftmostUnsplit(h: Heap, k: nat, j: nat, i: nat)
    requires Inv(h) && 0 < j <= k <= h.top && In(h, k, i) && !IsSplit(h, k, i)
    ensures In(h, j, Leftmost(k, j, i)) && !IsSplit(h, j, Leftmost(k, j, i))
    decreases k
  {
    if j < k {
      NoHalves(h, k, i);
      assert NodeOk(h, k - 1, 2 * i);
      LeftmostUnsplit(h, k - 1, j, 2 * i);
    }
  }

  /** Two free blocks at one address are the same block: the list nodes, which live in
      the blocks themselves, never collide. */
  lemma FreeAddressesDiffer(h: Heap, k: nat, i: nat, j: nat, m: nat)
    requires Inv(h) && j < k <= h.top && In(h, k, i) && In(h, j, m) && IsFree(h, k, i) && IsFree(h, j, m)
    ensures Addr(k, i) != Addr(j, m)
  {
    if Addr(k, i) == Addr(j, m) {
      assert NodeOk(h, k, i);
      LeftmostFree(h, k, j, i);
      AddrLeftmost(k, j, i);
      AddrIndex(j, m);
    }
  }

  lemma {:induction false} LeftmostFree(h: Heap, k: nat, j: nat, i: nat)
    requires Inv(h) && j < k <= h.top && In(h, k, i) && !IsSplit(h, k, i)
    ensures In(h, j, Leftmost(k, j, i)) && !IsFree(h, j, Leftmost(k, j, i)) && !Used(h, j, Leftmost(k, j, i))
    decreases k
  {
    NoHalves(h, k, i);
    if j < k - 1 {
      assert NodeOk(h, k - 1, 2 * i);
      LeftmostFree(h, k - 1, j, 2 * i);
    }
  }

  // ----- Runs of bd_malloc and bd_free -----

  /** The heap, the blocks given out and not yet freed, and the leaves marked at boot. */
  datatype Sys = Sys(heap: Heap, given: set<(nat, nat)>, marked: set<nat>)

  /** Block (k, i) is live exactly when it is given out, or a leaf marked at boot. */
  predicate OwnedOk(s: Sys, k: nat, i: nat)
    requires Shape(s.heap) && In(s.heap, k, i)
  {
    && (Live(s.heap, k, i) <==> (k, i) in s.given || (k == 0 && i in s.marked))
    && !((k, i) in s.given && k == 0 && i in s.marked)
  }

  ghost predicate Owned(s: Sys) {
    && Inv(s.heap) && 0 in s.marked
    && (forall b :: b in s.given ==> In(s.heap, b.0, b.1))
    && (forall k, i :: 0 <= k <= s.heap.top && 0 <= i < |s.heap.alloc[k]| ==> OwnedOk(s, k, i))
  }

  /** A request of order fk served from the lists at order `from`, or the free of a
      block given out. */
  datatype Act = Malloc(fk: nat, from: nat) | Free(k: nat, i: nat)

  ghost predicate Enabled(s: Sys, a: Act) {
    && Owned(s)
    && match a
       case Malloc(fk, from) =>
         && fk <= from <= s.heap.top && s.heap.free[from] != []
         && forall j :: fk <= j < from ==> s.heap.free[j] == []
       case Free(k, i) => (k, i) in s.given
  }

  lemma GivenIsLive(s: Sys, k: nat, i: nat)
    requires Owned(s) && (k, i) in s.given
    ensures In(s.heap, k, i) && Live(s.heap, k, i) && (k, i) != (0, 0)
  {
    assert In(s.heap, (k, i).0, (k, i).1);
    assert OwnedOk(s, k, i);
  }

  ghost function Apply(s: Sys, a: Act): Sys
    requires Enabled(s, a)
  {
    match a
    case Malloc(fk, from) =>
      MallocedSpec(s.heap, from, fk, 0, 0);
      s.(heap := Malloced(s.heap, from, fk), given := s.given + {(fk, Leftmost(from, fk, s.heap.free[from][0]))})
    case Free(k, i) =>
      GivenIsLive(s, k, i);
      s.(heap := Freed(s.heap, k, i), given := s.given - {(k, i)})
  }

  lemma MallocKeepsOwned(s: Sys, fk: nat, from: nat)
    requires Enabled(s, Malloc(fk, from))
    ensures Owned(Apply(s, Malloc(fk, from))) && Apply(s, Malloc(fk, from)).heap.top == s.heap.top
  {
    var t := Apply(s, Malloc(fk, from));
    MallocedSpec(s.heap, from, fk, 0, 0);
    SameLevels(s.heap, t.heap);
    forall k, i | 0 <= k <= t.heap.top && 0 <= i < |t.heap.alloc[k]|
      ensures OwnedOk(t, k, i)
    {
      MallocedSpec(s.heap, from, fk, k, i);
      assert OwnedOk(s, k, i);
      assert OwnedOk(s, fk, Leftmost(from, fk, s.heap.free[from][0]));
    }
  }

  lemma FreeKeepsOwned(s: Sys, j: nat, m: nat)
    requires Enabled(s, Free(j, m))
    ensures Owned(Apply(s, Free(j, m))) && Apply(s, Free(j, m)).heap.top == s.heap.top
  {
    var t := Apply(s, Free(j, m));
    GivenIsLive(s, j, m);
    FreedSpec(s.heap, j, m, 0, 0);
    SameLevels(s.heap, t.heap);
    forall k, i | 0 <= k <= t.heap.top && 0 <= i < |t.heap.alloc[k]|
      ensures OwnedOk(t, k, i)
    {
      FreedSpec(s.heap, j, m, k, i);
      assert OwnedOk(s, k, i);
    }
  }

  lemma SameLevels(h: Heap, t: Heap)
    requires Shape(h) && Shape(t) && h.top == t.top
    ensures forall k :: 0 <= k <= h.top ==> |h.alloc[k]| == |t.alloc[k]|
  {
    forall k | 0 <= k <= h.top
      ensures |h.alloc[k]| == |t.alloc[k]|
    {
      LevelSize(h, k);
      LevelSize(t, k);
    }
  }

  ghost predicate Reaches(s: Sys, acts: seq<Act>, t: Sys)
    decreases |acts|
  {
    if acts == [] then s == t
    else Enabled(s, acts[0]) && Reaches(Apply(s, acts[0]), acts[1..], t)
  }

  lemma {:induction false} RunKeeps(s: Sys, acts: seq<Act>, t: Sys)
    requires Owned(s) && Reaches(s, acts, t)
    ensures Owned(t) && t.marked == s.marked && t.heap.top == s.heap.top
    decreases |acts|
  {
    if acts != [] {
      match acts[0] {
        case Malloc(fk, from) => MallocKeepsOwned(s, fk, from);
        case Free(k, i) => FreeKeepsOwned(s, k, i);
      }
      RunKeeps(Apply(s, acts[0]), acts[1..], t);
    }
  }

  /** What leaf x belongs to at order k. */
  ghost predicate BelongsAt(s: Sys, x: nat, k: nat)
    requires Shape(s.heap) && k <= s.heap.top && In(s.heap, k, Containing(x, k))
  {
    || IsFree(s.heap, k, Containing(x, k))
    || (k, Containing(x, k)) in s.given
    || (k == 0 && x in s.marked)
  }

  /** After every run of bd_malloc and bd_free each leaf of the heap belongs to exactly
      one free block, block given out, or leaf marked at boot; and no two buddies are
      both free. */
  lemma HeapIsTiled(s: Sys, acts: seq<Act>, t: Sys, x: nat) returns (k: nat)
    requires Owned(s) && Reaches(s, acts, t) && x < Pow2(s.heap.top)
    ensures Inv(t.heap) && k <= t.heap.top && In(t.heap, k, Containing(x, k)) && BelongsAt(t, x, k)
    ensures forall j :: 0 <= j <= t.heap.top && j != k ==> In(t.heap, j, Containing(x, j)) && !BelongsAt(t, x, j)
    ensures forall j, i :: 0 <= j < t.heap.top && 0 <= i < |t.heap.alloc[j]| ==>
      In(t.heap, j, BuddyOf(i)) && !(IsFree(t.heap, j, i) && IsFree(t.heap, j, BuddyOf(i)))
  {
    RunKeeps(s, acts, t);
    LevelSize(t.heap, 0);
    k := Tiling(t.heap, x);
    assert OwnedOk(t, k, Containing(x, k));
    forall j | 0 <= j <= t.heap.top && j != k
      ensures In(t.heap, j, Containing(x, j)) && !BelongsAt(t, x, j)
    {
      ContainingIn(t.heap, x, j);
      assert OwnedOk(t, j, Containing(x, j));
    }
    forall j, i | 0 <= j < t.heap.top && 0 <= i < |t.heap.alloc[j]|
      ensures In(t.heap, j, BuddyOf(i)) && !(IsFree(t.heap, j, i) && IsFree(t.heap, j, BuddyOf(i)))
    {
      assert NodeOk(t.heap, j, i);
    }
  }
}
