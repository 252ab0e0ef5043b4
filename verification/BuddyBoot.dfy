/** Start-up of the buddy allocator (bd_mark, bd_initfree and bd_init of
    kernel/buddy.c).

    The leaves before `lo` hold the allocator's own data and those from `hi` on do not
    exist; both are marked at every order.  The blocks left over are put on the free
    lists, as large as possible. */
module BuddyBoot {
  import opened Buddy

  /** blk_index_next(k, lo): the first block of order k with no leaf before lo. */
  function Left(lo: nat, k: nat): nat {
    if k == 0 then lo else (Left(lo, k - 1) + 1) / 2
  }

  /** blk_index(k, hi): the first block of order k with a leaf from hi on. */
  function Right(hi: nat, k: nat): nat {
    Containing(hi, k)
  }

  lemma RoundUp(x: nat, d: nat, n: nat)
    requires d > 0 && n * d >= x && (n > 0 ==> (n - 1) * d < x)
    ensures n == x / d + if x % d != 0 then 1 else 0
  {
    if n > 0 {
      assert (n - 1) * d + d == n * d;
      var q := if x == n * d then n else n - 1;
      Quotient(x, d, q);
      assert x == q * d + x % d;
    }
  }

  /** `Left` is the quotient rounded up that blk_index_next computes. */
  lemma LeftIsQuotient(lo: nat, k: nat)
    ensures Left(lo, k) == lo / Pow2(k) + if lo % Pow2(k) != 0 then 1 else 0
  {
    LeftBounds(lo, k);
    RoundUp(lo, Pow2(k), Left(lo, k));
  }

  lemma {:induction false} LeftBounds(lo: nat, k: nat)
    ensures Addr(k, Left(lo, k)) >= lo && (Left(lo, k) > 0 ==> Addr(k, Left(lo, k) - 1) < lo)
  {
    if k > 0 {
      LeftBounds(lo, k - 1);
      var m, n := Left(lo, k - 1), Left(lo, k);
      AddrHalves(k, n);
      MulMono(m, 2 * n, Pow2(k - 1));
      if n > 0 {
        AddrHalves(k, n - 1);
        MulMono(2 * (n - 1), m - 1, Pow2(k - 1));
      }
    }
  }

  /** Block (k, i) has a marked leaf. */
  predicate Marked(lo: nat, hi: nat, k: nat, i: nat) {
    i < Left(lo, k) || i >= Right(hi, k)
  }

  /** Number of blocks of order k without a marked leaf. */
  function Whole(lo: nat, hi: nat, k: nat): nat {
    if Left(lo, k) < Right(hi, k) then Right(hi, k) - Left(lo, k) else 0
  }

  /** bd_initfree_pair(k, bi): the unmarked one of a half-marked pair. */
  function Pair(lo: nat, hi: nat, k: nat, bi: nat): seq<nat> {
    if Marked(lo, hi, k, bi) == Marked(lo, hi, k, BuddyOf(bi)) then []
    else if Marked(lo, hi, k, bi) then [BuddyOf(bi)] else [bi]
  }

  /** The free list of order k that bd_initfree builds. */
  function FreeList(lo: nat, hi: nat, k: nat): seq<nat> {
    var left, right := Left(lo, k), Right(hi, k);
    if right <= left then Pair(lo, hi, k, left)
    else Pair(lo, hi, k, right) + Pair(lo, hi, k, left)
  }

  /** The pair at the left end is also the pair at the right end. */
  predicate Clash(lo: nat, hi: nat, k: nat) {
    Left(lo, k) % 2 == 0 && Right(hi, k) == Left(lo, k) + 1
  }

  /** The number of bytes (here leaves) that bd_initfree adds up, from order k on. */
  function Total(top: nat, lo: nat, hi: nat, k: nat): nat
    requires k <= top
    decreases top - k
  {
    if k == top then 0 else |FreeList(lo, hi, k)| * Pow2(k) + Total(top, lo, hi, k + 1)
  }

  lemma FreeListIs(lo: nat, hi: nat, k: nat)
    ensures Whole(lo, hi, k) + (if Clash(lo, hi, k) then 1 else 0) == 2 * Whole(lo, hi, k + 1) + |FreeList(lo, hi, k)|
    ensures forall i :: i in FreeList(lo, hi, k) <==>
      !Marked(lo, hi, k, i) && Marked(lo, hi, k, BuddyOf(i))
  {
  }

  /** Without a clash the two pairs that bd_initfree looks at free different blocks. */
  lemma PairsDiffer(lo: nat, hi: nat, k: nat)
    ensures !Clash(lo, hi, k) && Right(hi, k) > Left(lo, k) ==>
      forall x :: x in Pair(lo, hi, k, Right(hi, k)) ==> x !in Pair(lo, hi, k, Left(lo, k))
    ensures Right(hi, k) <= Left(lo, k) ==> FreeList(lo, hi, k) == Pair(lo, hi, k, Left(lo, k))
    ensures Right(hi, k) > Left(lo, k) ==>
      FreeList(lo, hi, k) == Pair(lo, hi, k, Right(hi, k)) + Pair(lo, hi, k, Left(lo, k))
  {
  }

  /** Both pairs lie inside the bitmap of order k, with the metadata in the lower half
      of the heap and at least one leaf missing at its end. */
  lemma EndsInside(top: nat, lo: nat, hi: nat, k: nat)
    requires k < top && lo <= Pow2(top - 1) && hi < Pow2(top)
    ensures Left(lo, k) < Pow2(top - k) && Right(hi, k) < Pow2(top - k)
  {
    ContainingBelow(hi, k, top);
    LeftAtMost(lo, k, top - 1 - k);
  }

  ghost predicate NoClash(top: nat, lo: nat, hi: nat, k: nat) {
    forall j :: k <= j < top ==> !Clash(lo, hi, j)
  }

  lemma Regroup(whole: nat, extra: nat, w: nat, n: nat, p: nat)
    requires whole + extra == 2 * w + n
    ensures whole * p + extra * p == w * (2 * p) + n * p
  {
    assert (whole + extra) * p == whole * p + extra * p;
    assert (2 * w + n) * p == w * (2 * p) + n * p;
  }

  /** Free space at order k and above is the whole blocks of order k, plus a block for
      every order at which a pair is pushed twice. */
  lemma {:induction false} TotalIs(top: nat, lo: nat, hi: nat, k: nat)
    requires k <= top && Right(hi, top) == 0
    ensures Total(top, lo, hi, k) >= Whole(lo, hi, k) * Pow2(k)
    ensures Total(top, lo, hi, k) == Whole(lo, hi, k) * Pow2(k) <==> NoClash(top, lo, hi, k)
    decreases top - k
  {
    hide FreeList, Clash;
    if k < top {
      TotalIs(top, lo, hi, k + 1);
      FreeListIs(lo, hi, k);
      var extra := if Clash(lo, hi, k) then 1 else 0;
      Regroup(Whole(lo, hi, k), extra, Whole(lo, hi, k + 1), |FreeList(lo, hi, k)|, Pow2(k));
      assert NoClash(top, lo, hi, k) <==> !Clash(lo, hi, k) && NoClash(top, lo, hi, k + 1);
    }
  }

  /** bd_init's final check fails exactly when some order has a clash. */
  lemma FreeMemoryCheck(top: nat, lo: nat, hi: nat)
    requires top > 0 && lo <= Pow2(top - 1) && lo <= hi < Pow2(top)
    ensures Total(top, lo, hi, 0) == hi - lo <==> NoClash(top, lo, hi, 0)
  {
    ContainingIsQuotient(hi, top, 0);
    TotalIs(top, lo, hi, 0);
  }

  lemma {:induction false} LeftAtMost(lo: nat, k: nat, j: nat)
    requires lo <= Pow2(k + j)
    ensures Left(lo, k) <= Pow2(j)
    decreases k
  {
    if k > 0 {
      LeftAtMost(lo, k - 1, j + 1);
    }
  }

  lemma {:induction false} RightAtLeast(hi: nat, k: nat, j: nat)
    requires hi >= Pow2(k + j)
    ensures Right(hi, k) >= Pow2(j)
    decreases k
  {
    if k > 0 {
      RightAtLeast(hi, k - 1, j + 1);
    }
  }

  lemma {:induction false} LeftPositive(lo: nat, k: nat)
    requires lo > 0
    ensures Left(lo, k) > 0
  {
    if k > 0 {
      LeftPositive(lo, k - 1);
    }
  }

  lemma {:induction false} AllBlocks(top: nat, k: nat)
    requires k <= top
    ensures Left(Pow2(top), k) == Pow2(top - k) && Containing(0, k) == 0
  {
    if k > 0 {
      AllBlocks(top, k - 1);
    }
  }

  /** With the metadata in the first quarter and the end in the upper half, as bd_init
      chooses the number of sizes, there is never a clash. */
  lemma QuarterIsEnough(top: nat, lo: nat, hi: nat)
    requires top >= 2 && 0 < lo <= Pow2(top - 2) && Pow2(top - 1) <= hi < Pow2(top)
    ensures NoClash(top, lo, hi, 0)
  {
    forall k | 0 <= k < top
      ensures !Clash(lo, hi, k)
    {
      LeftPositive(lo, k);
      if k <= top - 2 {
        LeftAtMost(lo, k, top - 2 - k);
        RightAtLeast(hi, k, top - 1 - k);
        if k == top - 2 {
          assert Pow2(0) == 1 && Pow2(1) == 2;
        } else {
          assert Pow2(top - 2 - k) >= 2;
        }
      } else {
        TopPair(top, lo, hi);
      }
    }
  }

  lemma TopPair(top: nat, lo: nat, hi: nat)
    requires top >= 2 && 0 < lo <= Pow2(top - 2) && Pow2(top - 1) <= hi < Pow2(top)
    ensures Left(lo, top - 1) == 1 && Right(hi, top - 1) == 1
  {
    LeftPositive(lo, top - 1);
    LeftAtMost(lo, top - 1, 0);
    RightAtLeast(hi, top - 1, 0);
    ContainingIsQuotient(hi, top, 0);
  }

  // ----- The heap that start-up leaves -----

  function Bits(top: nat, lo: nat, hi: nat, k: nat): seq<bool>
    requires k <= top
  {
    seq(Pow2(top - k), i requires 0 <= i => Marked(lo, hi, k, i))
  }

  function NoBits(top: nat, k: nat): seq<bool>
    requires k <= top
  {
    seq(Pow2(top - k), _ => false)
  }

  function ZeroHeap(top: nat): Heap {
    Heap(top,
         seq(top + 1, k requires 0 <= k <= top => NoBits(top, k)),
         seq(top + 1, k requires 0 <= k <= top => NoBits(top, k)),
         seq(top + 1, _ => []))
  }

  /** bd_mark marks a block as split too, except at order 0. */
  function BootHeap(top: nat, lo: nat, hi: nat): Heap {
    Heap(top,
         seq(top + 1, k requires 0 <= k <= top => Bits(top, lo, hi, k)),
         seq(top + 1, k requires 0 <= k <= top => if k > 0 then Bits(top, lo, hi, k) else NoBits(top, k)),
         seq(top + 1, k requires 0 <= k => if k < top then FreeList(lo, hi, k) else []))
  }

  lemma BootShape(top: nat, lo: nat, hi: nat)
    ensures Shape(BootHeap(top, lo, hi)) && Shape(ZeroHeap(top)) && BootHeap(top, lo, hi).top == top
  {
  }

  /** A block has a marked leaf exactly when one of its halves has. */
  lemma MarkedParent(lo: nat, hi: nat, k: nat, i: nat)
    ensures Marked(lo, hi, k + 1, i / 2) <==> Marked(lo, hi, k, i) || Marked(lo, hi, k, BuddyOf(i))
  {
  }

  lemma BootBits(top: nat, lo: nat, hi: nat, k: nat, i: nat)
    requires k <= top && i < Pow2(top - k)
    ensures var h := BootHeap(top, lo, hi);
      && Shape(h) && In(h, k, i)
      && (Used(h, k, i) <==> Marked(lo, hi, k, i))
      && (IsSplit(h, k, i) <==> k > 0 && Marked(lo, hi, k, i))
      && (IsFree(h, k, i) <==> k < top && !Marked(lo, hi, k, i) && Marked(lo, hi, k, BuddyOf(i)))
  {
    BootShape(top, lo, hi);
    if k < top {
      FreeListIs(lo, hi, k);
    }
  }

  lemma BootNode(top: nat, lo: nat, hi: nat, k: nat, i: nat)
    requires 0 < lo && k <= top && i < Pow2(top - k)
    ensures Shape(BootHeap(top, lo, hi)) && In(BootHeap(top, lo, hi), k, i) && NodeOk(BootHeap(top, lo, hi), k, i)
  {
    BootBits(top, lo, hi, k, i);
    if k < top {
      MarkedParent(lo, hi, k, i);
      assert Pow2(top - k) == 2 * Pow2(top - (k + 1));
      BootBits(top, lo, hi, k + 1, i / 2);
      BootBits(top, lo, hi, k, BuddyOf(i));
    } else {
      LeftPositive(lo, top);
    }
  }

  lemma BootLists(top: nat, lo: nat, hi: nat, k: nat)
    requires 0 < lo <= hi < Pow2(top) && k <= top && NoClash(top, lo, hi, 0)
    ensures Shape(BootHeap(top, lo, hi)) && Listed(BootHeap(top, lo, hi), k)
  {
    hide FreeList, Left, Containing;
    BootShape(top, lo, hi);
    if k < top {
      assert !Clash(lo, hi, k);
      FreeListDistinct(lo, hi, k);
      ContainingBelow(hi, k, top);
    }
  }

  lemma FreeListDistinct(lo: nat, hi: nat, k: nat)
    requires !Clash(lo, hi, k)
    ensures forall a, b :: 0 <= a < b < |FreeList(lo, hi, k)| ==> FreeList(lo, hi, k)[a] != FreeList(lo, hi, k)[b]
    ensures forall n :: 0 <= n < |FreeList(lo, hi, k)| ==> FreeList(lo, hi, k)[n] < Right(hi, k)
  {
    hide Left, Containing;
  }

  lemma {:induction false} ContainingBelow(x: nat, k: nat, top: nat)
    requires k <= top && x < Pow2(top)
    ensures Containing(x, k) < Pow2(top - k)
  {
    if k > 0 {
      ContainingBelow(x, k - 1, top);
    }
  }

  /** Start-up establishes the allocator's invariant: the lists hold exactly the
      maximal blocks of the leaves from lo to hi. */
  lemma BootInv(top: nat, lo: nat, hi: nat)
    requires 0 < lo <= hi < Pow2(top) && NoClash(top, lo, hi, 0)
    ensures Inv(BootHeap(top, lo, hi))
  {
    hide NodeOk, Listed, BootHeap, Marked;
    var h := BootHeap(top, lo, hi);
    BootShape(top, lo, hi);
    BootBits(top, lo, hi, 0, 0);
    MarkedLeaf(lo, hi, 0);
    forall k | 0 <= k <= top
      ensures Listed(h, k)
    {
      BootLists(top, lo, hi, k);
    }
    forall k, i | 0 <= k <= h.top && 0 <= i < |h.alloc[k]|
      ensures NodeOk(h, k, i)
    {
      LevelSize(h, k);
      BootNode(top, lo, hi, k, i);
    }
  }

  /** A leaf lies in a free block exactly when it is between lo and hi. */
  lemma BootFreeLeaves(top: nat, lo: nat, hi: nat, x: nat) returns (k: nat)
    requires 0 < lo <= hi < Pow2(top) && NoClash(top, lo, hi, 0) && x < Pow2(top)
    ensures Inv(BootHeap(top, lo, hi)) && k <= top && In(BootHeap(top, lo, hi), k, Containing(x, k))
    ensures if lo <= x < hi then IsFree(BootHeap(top, lo, hi), k, Containing(x, k))
            else k == 0 && Live(BootHeap(top, lo, hi), k, x)
  {
    hide NodeOk, Listed, BootHeap, Marked;
    var h := BootHeap(top, lo, hi);
    BootShape(top, lo, hi);
    BootInv(top, lo, hi);
    BootBits(top, lo, hi, 0, x);
    k := Tiling(h, x);
    ContainingBelow(x, k, top);
    BootBits(top, lo, hi, k, Containing(x, k));
    MarkedLeaf(lo, hi, x);
    assert Containing(x, 0) == x && (Marked(lo, hi, 0, x) ==> Covers(h, 0, x));
  }

  // ----- The number of orders -----

  const LEAF_SIZE := 16

  method Log2(n: nat) returns (k: nat)
    ensures n > 0 ==> Pow2(k) <= n < 2 * Pow2(k)
    ensures n == 0 ==> k == 0
  {
    k := 0;
    var m := n;
    while m > 1
      invariant n > 0 ==> m > 0 && m * Pow2(k) <= n < (m + 1) * Pow2(k)
      invariant n == 0 ==> m == 0 && k == 0
    {
      HalfStep(n, m, Pow2(k));
      k := k + 1;
      m := m / 2;
    }
  }

  lemma HalfStep(n: nat, m: nat, p: nat)
    requires m * p <= n < (m + 1) * p
    ensures (m / 2) * (2 * p) <= n < (m / 2 + 1) * (2 * p)
  {
    var h := m / 2;
    assert h * (2 * p) == (2 * h) * p && (h + 1) * (2 * p) == (2 * h + 2) * p;
    MulMono(2 * h, m, p);
    MulMono(m + 1, 2 * h + 2, p);
  }

  /** The size computation of bd_init: MAXSIZE for a heap of so many bytes. */
  method MaxSize(bytes: nat) returns (top: nat)
    ensures Sizes(bytes, top)
  {
    top := Log2(bytes / LEAF_SIZE);
    if bytes > Pow2(top) * LEAF_SIZE {
      top := top + 1;
    }
  }

  // ----- The metadata that bd_init puts at the start of the heap -----

  /** ROUNDUP(n, 8) / 8 bytes for n bits. */
  function BitBytes(n: nat): nat {
    (n + 7) / 8
  }

  /** The bytes of one bit vector for each order with 2^e blocks or fewer. */
  function VectorBytes(e: nat): nat {
    BitBytes(Pow2(e)) + if e == 0 then 0 else VectorBytes(e - 1)
  }

  /** The Sz_info records of 32 bytes, an alloc vector for every order and a split vector
      for every order but the lowest. */
  function MetaBytes(top: nat): nat {
    32 * (top + 1) + VectorBytes(top) + if top == 0 then 0 else VectorBytes(top - 1)
  }

  /** Rounded up to whole leaves. */
  function MetaLeaves(top: nat): nat {
    (MetaBytes(top) + 15) / 16
  }

  lemma {:induction false} VectorDoubles(e: nat)
    ensures VectorBytes(e + 1) <= 2 * VectorBytes(e)
  {
    if e > 0 {
      VectorDoubles(e - 1);
      assert Pow2(e + 1) == 2 * Pow2(e);
    } else {
      assert Pow2(1) == 2 && Pow2(0) == 1;
    }
  }

  lemma SmallVectors()
    ensures VectorBytes(4) == 6 && VectorBytes(5) == 10 && VectorBytes(6) == 18
  {
    assert Pow2(1) == 2 && Pow2(2) == 4 && Pow2(3) == 8 && Pow2(4) == 16 && Pow2(5) == 32 && Pow2(6) == 64;
    assert VectorBytes(0) == 1 && VectorBytes(1) == 2 && VectorBytes(2) == 3 && VectorBytes(3) == 4;
  }

  lemma {:induction false} MetaFits(top: nat)
    requires top >= 6
    ensures MetaBytes(top) <= 4 * Pow2(top)
  {
    if top == 6 {
      SmallVectors();
      assert Pow2(6) == 64;
    } else {
      MetaFits(top - 1);
      VectorDoubles(top - 1);
      VectorDoubles(top - 2);
    }
  }

  /** From seven orders on, the metadata lies in the first quarter of the heap. */
  lemma MetaInQuarter(top: nat)
    requires top >= 6
    ensures 0 < MetaLeaves(top) <= Pow2(top - 2)
  {
    MetaFits(top);
    assert Pow2(top) == 4 * Pow2(top - 2);
  }

  /** With six orders the heap has up to 32 leaves, the first 13 for metadata. */
  lemma MetaOfFive()
    ensures MetaLeaves(5) == 13 && Pow2(5) == 32 && Pow2(4) == 16
  {
    SmallVectors();
    assert Pow2(1) == 2 && Pow2(2) == 4 && Pow2(3) == 8 && Pow2(4) == 16;
  }

  /** The order count that bd_init chooses for so many bytes. */
  predicate Sizes(bytes: nat, top: nat) {
    LEAF_SIZE * Pow2(top) >= bytes && (top > 0 ==> LEAF_SIZE * Pow2(top - 1) < bytes)
  }

  /** What bd_init makes of memory with room for its metadata and at least part of a
      leaf short of a power of two. */
  lemma InitParts(bytes: nat, top: nat)
    requires bytes > 256 && Sizes(bytes, top) && bytes < LEAF_SIZE * Pow2(top)
    ensures top >= 5 && 0 < MetaLeaves(top) <= Pow2(top - 1)
    ensures MetaLeaves(top) <= Pow2(top - 1) <= bytes / LEAF_SIZE < Pow2(top)
    ensures top == 5 <==> bytes < 512
    ensures bytes > 512 ==> top >= 6
  {
    MetaOfFive();
    if top < 5 {
      PowMono(top, 4);
    }
    if top >= 6 {
      PowMono(5, top - 1);
      MetaInQuarter(top);
    }
    assert Pow2(top) == 2 * Pow2(top - 1);
  }

  lemma {:induction false} PowMono(a: nat, b: nat)
    requires a <= b
    ensures Pow2(a) <= Pow2(b)
  {
    if a < b {
      PowMono(a, b - 1);
    }
  }

  /** The ends of the free leaves at each order of a heap of 32 leaves. */
  lemma FiveOrders(hi: nat)
    requires 16 <= hi < 32
    ensures NoClash(5, 13, hi, 0) <==> hi < 20
  {
    assert Left(13, 1) == 7 && Left(13, 2) == 4 && Left(13, 3) == 2 && Left(13, 4) == 1;
    assert Containing(hi, 1) == hi / 2;
    assert Containing(hi, 2) == hi / 2 / 2;
    assert Containing(hi, 3) == hi / 2 / 2 / 2;
    assert Clash(13, hi, 2) <==> hi / 4 == 5;
    assert Clash(13, hi, 3) <==> hi / 8 == 3;
    assert !Clash(13, hi, 0) && !Clash(13, hi, 1) && !Clash(13, hi, 4);
    if hi < 20 {
      forall k | 0 <= k < 5
        ensures !Clash(13, hi, k)
      {
        assert k == 0 || k == 1 || k == 2 || k == 3 || k == 4;
      }
    }
  }

  /** Exactly when bd_init's final check succeeds: not for memory of 320 to 511 bytes,
      where a free pair is pushed twice. */
  lemma InitCheckIff(bytes: nat, top: nat)
    requires bytes > 256 && Sizes(bytes, top) && bytes < LEAF_SIZE * Pow2(top)
    ensures var lo, hi := MetaLeaves(top), bytes / LEAF_SIZE;
      lo <= hi && (Total(top, lo, hi, 0) == hi - lo <==> bytes < 320 || bytes > 512)
  {
    InitParts(bytes, top);
    MetaOfFive();
    var lo, hi := MetaLeaves(top), bytes / LEAF_SIZE;
    FreeMemoryCheck(top, lo, hi);
    if top == 5 {
      FiveOrders(hi);
    } else {
      MetaInQuarter(top);
      QuarterIsEnough(top, lo, hi);
    }
  }

  /** For one: memory of 320 bytes, six orders, 208 bytes of metadata. */
  lemma FreeMemoryCheckFails()
    ensures Sizes(320, 5) && MetaBytes(5) == 208 && MetaLeaves(5) == 13
    ensures Clash(13, 20, 2) && Total(5, 13, 20, 0) != 20 - 13
  {
    MetaOfFive();
    SmallVectors();
    InitCheckIff(320, 5);
    assert Left(13, 1) == 7 && Left(13, 2) == 4 && Right(20, 1) == 10 && Right(20, 2) == 5;
  }

  // ----- Everything that happens after start-up -----

  predicate Outside(lo: nat, hi: nat, x: nat) {
    x < lo || hi <= x
  }

  function MarkedLeaves(top: nat, lo: nat, hi: nat): set<nat> {
    set x | 0 <= x < Pow2(top) && Outside(lo, hi, x)
  }

  /** At start-up nothing has been given out, and the live blocks are the marked leaves. */
  lemma BootOwned(top: nat, lo: nat, hi: nat)
    requires 0 < lo <= hi < Pow2(top) && NoClash(top, lo, hi, 0)
    ensures Owned(Sys(BootHeap(top, lo, hi), {}, MarkedLeaves(top, lo, hi)))
  {
    hide NodeOk, Listed, BootHeap, Marked;
    var s := Sys(BootHeap(top, lo, hi), {}, MarkedLeaves(top, lo, hi));
    BootShape(top, lo, hi);
    BootInv(top, lo, hi);
    forall k, i | 0 <= k <= s.heap.top && 0 <= i < |s.heap.alloc[k]|
      ensures OwnedOk(s, k, i)
    {
      LevelSize(s.heap, k);
      BootBits(top, lo, hi, k, i);
      MarkedLeaf(lo, hi, i);
    }
  }

  lemma MarkedLeaf(lo: nat, hi: nat, x: nat)
    ensures Marked(lo, hi, 0, x) <==> Outside(lo, hi, x)
  {
  }

  /** From the heap that bd_init leaves, every run of bd_malloc and bd_free keeps each
      leaf in exactly one free block, block given out, or leaf marked at start-up, and
      never leaves two free buddies. */
  lemma BootedHeapIsTiled(top: nat, lo: nat, hi: nat, acts: seq<Act>, t: Sys, x: nat) returns (k: nat)
    requires 0 < lo <= hi < Pow2(top) && NoClash(top, lo, hi, 0) && x < Pow2(top)
    requires Reaches(Sys(BootHeap(top, lo, hi), {}, MarkedLeaves(top, lo, hi)), acts, t)
    ensures Inv(t.heap) && k <= t.heap.top == top && In(t.heap, k, Containing(x, k)) && BelongsAt(t, x, k)
    ensures forall j :: 0 <= j <= top && j != k ==> In(t.heap, j, Containing(x, j)) && !BelongsAt(t, x, j)
    ensures forall j, i :: 0 <= j < top && 0 <= i < |t.heap.alloc[j]| ==>
      In(t.heap, j, BuddyOf(i)) && !(IsFree(t.heap, j, i) && IsFree(t.heap, j, BuddyOf(i)))
    ensures t.marked == MarkedLeaves(top, lo, hi)
  {
    var s := Sys(BootHeap(top, lo, hi), {}, MarkedLeaves(top, lo, hi));
    BootOwned(top, lo, hi);
    RunKeeps(s, acts, t);
    k := HeapIsTiled(s, acts, t, x);
  }

  // ----- The size that firstk doubles -----

  const WORD := 0x1_0000_0000_0000_0000

  /** `size` after k doublings in 64 bits, each of which drops the carry. */
  function Doubled(k: nat): (r: nat)
    ensures r < WORD
  {
    if k == 0 then LEAF_SIZE else
    var twice := 2 * Doubled(k - 1);
    if twice < WORD then twice else twice - WORD
  }

  lemma {:induction false} DoubledIs(k: nat)
    ensures Doubled(k) == if k <= 59 then LEAF_SIZE * Pow2(k) else 0
    ensures k <= 59 ==> LEAF_SIZE * Pow2(k) <= 0x8000_0000_0000_0000
  {
    hide Pow2;
    BigPowers();
    PowNext(k);
    if k <= 59 {
      PowMono(k, 59);
    }
    if k > 0 {
      DoubledIs(k - 1);
    }
  }

  lemma PowNext(k: nat)
    ensures k > 0 ==> Pow2(k) == 2 * Pow2(k - 1)
    ensures Pow2(0) == 1
  {
  }

  lemma BigPowers()
    ensures Pow2(59) == 0x800_0000_0000_0000
  {
    hide Pow2;
    PowNext(0);
    PowPlusTen(0);
    PowPlusTen(10);
    PowPlusTen(20);
    PowPlusTen(30);
    PowPlusTen(40);
    PowPlusTen(49);
    PowNext(50);
  }

  lemma PowPlusTen(k: nat)
    ensures Pow2(k + 10) == 1024 * Pow2(k)
  {
    assert Pow2(k + 2) == 4 * Pow2(k);
    assert Pow2(k + 4) == 4 * Pow2(k + 2);
    assert Pow2(k + 6) == 4 * Pow2(k + 4);
    assert Pow2(k + 8) == 4 * Pow2(k + 6);
  }

  /** firstk's loop ends if and only if the request is at most 2^63 bytes: beyond that the
      size wraps to zero before it gets there, and stays zero. */
  lemma FirstKEndsIff(nbytes: nat)
    requires nbytes < WORD
    ensures (exists k: nat :: Doubled(k) >= nbytes) <==> nbytes <= 0x8000_0000_0000_0000
  {
    if nbytes <= 0x8000_0000_0000_0000 {
      DoubledIs(59);
      BigPowers();
      assert Doubled(59) >= nbytes;
    } else {
      forall k: nat
        ensures Doubled(k) < nbytes
      {
        DoubledIs(k);
      }
    }
  }
}
