/** What a user program sees of its memory, and how fork's copy of it proceeds. */
module PageCopy {
  import opened PageTable

  /** User pages: all below the trapframe's. */
  const USER_PAGES := PAGES - 2

  /** The byte a program sees at an address; memory not yet allocated reads as zero. */
  ghost function ByteAt(m: Mem, at: Tree, a: nat): nat {
    if HasPage(m, at, a / 4096) && a / 4096 < USER_PAGES then FrameByte(m, Leaf(m, at, a / 4096).frame, a % 4096) else 0
  }

  ghost function FrameByte(m: Mem, f: nat, i: nat): nat {
    if f in m.data && i < |m.data[f]| then m.data[f][i] else 0
  }

  // ----- Two address spaces in one memory -----

  lemma SameTables(m: Mem, m': Mem, root: nat, at: Tree)
    requires IsTree(m, root, at) && m'.tables == m.tables
    ensures IsTree(m', root, at) && SameLeaves(m, at, m', at)
  {
    forall n, i | n in at && n.level > 0 && 0 <= i < 512
      ensures EntryOk(m', at, n, i)
    {
      assert EntryOk(m, at, n, i);
    }
    forall n | n in at
      ensures NodeOk(m', at, n)
    {
      assert NodeOk(m, at, n);
    }
  }

  /** Work inside one tree leaves every other tree and its map alone. */
  lemma OtherTree(m: Mem, at: Tree, m': Mem, at': Tree, root1: nat, at1: Tree)
    requires MemOk(m) && Inside(m, at, m', at') && IsTree(m, root1, at1) && at1.Values !! at.Values
    ensures IsTree(m', root1, at1) && SameLeaves(m, at1, m', at1) && at1.Values !! at'.Values
  {
    forall n | n in at1
      ensures at1[n] in m.tables && at1[n] in m'.tables && m'.tables[at1[n]] == m.tables[at1[n]] && NodeOk(m', at1, n)
    {
      assert NodeOk(m, at1, n) && at1[n] in at1.Values;
    }
    forall n, i | n in at1 && n.level > 0 && 0 <= i < 512
      ensures EntryOk(m', at1, n, i)
    {
      assert EntryOk(m, at1, n, i);
    }
    forall f | f in at1.Values
      ensures f !in at'.Values
    {
      var k :| k in at1 && at1[k] == f;
      assert f in m.tables && f !in m.free;
    }
  }

  // ----- uvmcopy, page by page -----

  /** Page v of the child is a copy of the parent's, on a frame of its own. */
  ghost predicate PageCopied(m: Mem, at1: Tree, m1: Mem, at2: Tree, v: nat) {
    if HasPage(m, at1, v) then
      && HasPage(m1, at2, v)
      && Leaf(m1, at2, v).flags == Leaf(m, at1, v).flags
      && Leaf(m1, at2, v).frame in m.free && Leaf(m1, at2, v).frame in m1.data
      && Leaf(m, at1, v).frame in m.data
      && m1.data[Leaf(m1, at2, v).frame] == m.data[Leaf(m, at1, v).frame]
    else !HasPage(m1, at2, v)
  }

  /** m1 is m with the first n pages of the space at1 copied to at2. */
  ghost predicate Copied(m: Mem, at1: Tree, m1: Mem, at2: Tree, n: nat) {
    && (forall v: nat :: v < n ==> PageCopied(m, at1, m1, at2, v))
    && Owned(m1, at2, 0, n)
    && (forall f :: f in m1.data <==> f in m.data || f in FramesOf(m1, at2, 0, n))
    && (forall f :: f in m.data ==> f in m1.data && m1.data[f] == m.data[f])
    && m1.free <= m.free
  }

  lemma CopiedNone(m: Mem, at1: Tree, at2: Tree)
    ensures Copied(m, at1, m, at2, 0)
  {
  }

  lemma CopiedSkip(m: Mem, at1: Tree, m1: Mem, at2: Tree, n: nat)
    requires Copied(m, at1, m1, at2, n) && !HasPage(m, at1, n) && !HasPage(m1, at2, n)
    ensures Copied(m, at1, m1, at2, n + 1)
  {
    assert PageCopied(m, at1, m1, at2, n);
    hide FramesOf, Owned, HasPage, Leaf, PageCopied;
    FramesOneMore(m1, at2, 0, n);
    FrameOfOne(m1, at2, n);
    OwnedSkip(m1, at2, n);
  }

  lemma OwnedSkip(m: Mem, at: Tree, n: nat)
    requires Owned(m, at, 0, n) && !HasPage(m, at, n)
    ensures Owned(m, at, 0, n + 1)
  {
    hide Leaf, HasPage;
  }

  lemma CopiedPageMore(m: Mem, at1: Tree, m1: Mem, at2: Tree, m2: Mem, at2': Tree, n: nat, f: nat)
    requires MemOk(m) && Copied(m, at1, m1, at2, n) && HasPage(m, at1, n) && Leaf(m, at1, n).frame in m.data
    requires f in m1.free && f !in m1.data && m2.data == m1.data[f := m.data[Leaf(m, at1, n).frame]]
    requires m2.free <= m1.free && n < PAGES
    requires MapsRun(m1, at2, m2, at2', n, 1, f, Leaf(m, at1, n).flags)
    ensures Copied(m, at1, m2, at2', n + 1)
  {
    hide Leaf, FramesOf, Owned;
    forall v: nat | v < n
      ensures PageCopied(m, at1, m2, at2', v) && Leaf(m2, at2', v) == Leaf(m1, at2, v)
      ensures HasPage(m1, at2, v) ==> Leaf(m1, at2, v).frame != f
    {
      assert PageCopied(m, at1, m1, at2, v);
    }
    assert Leaf(m2, at2', n) == Mapped(f, Leaf(m, at1, n).flags);
    FramesOneMore(m2, at2', 0, n);
    FrameOfOne(m2, at2', n);
    SameFrames(m1, at2, m2, at2', n);
    OwnedMore(m1, at2, m2, at2', n);
  }

  lemma SameFrames(m1: Mem, at1: Tree, m2: Mem, at2: Tree, n: nat)
    requires forall v: nat :: v < n ==> Leaf(m2, at2, v) == Leaf(m1, at1, v)
    ensures FramesOf(m2, at2, 0, n) == FramesOf(m1, at1, 0, n)
  {
  }

  lemma OwnedMore(m1: Mem, at1: Tree, m2: Mem, at2: Tree, n: nat)
    requires Owned(m1, at1, 0, n) && m1.data.Keys <= m2.data.Keys
    requires forall v: nat :: v < n ==> Leaf(m2, at2, v) == Leaf(m1, at1, v)
    requires HasPage(m2, at2, n) && Leaf(m2, at2, n).frame in m2.data
    requires forall v: nat :: v < n && HasPage(m1, at1, v) ==> Leaf(m1, at1, v).frame != Leaf(m2, at2, n).frame
    ensures Owned(m2, at2, 0, n + 1)
  {
  }

  /** After uvmcopy the child sees what the parent saw, and no frame is shared. */
  lemma CopiedView(m: Mem, at1: Tree, m1: Mem, at2: Tree, n: nat, a: nat)
    requires Copied(m, at1, m1, at2, n) && SameLeaves(m, at1, m1, at1) && a / 4096 < n
    ensures ByteAt(m1, at2, a) == ByteAt(m, at1, a) == ByteAt(m1, at1, a)
  {
    assert PageCopied(m, at1, m1, at2, a / 4096);
  }

  lemma CopiedApart(m: Mem, at1: Tree, m1: Mem, at2: Tree, n: nat)
    requires MemOk(m) && Copied(m, at1, m1, at2, n) && SameLeaves(m, at1, m1, at1) && Owned(m, at1, 0, n)
    ensures FramesOf(m1, at1, 0, n) !! FramesOf(m1, at2, 0, n)
  {
    forall v: nat | v < n && HasPage(m1, at2, v)
      ensures Leaf(m1, at2, v).frame in m.free
    {
      assert PageCopied(m, at1, m1, at2, v);
    }
  }

  lemma SameLeaf(m: Mem, at: Tree, m': Mem, at': Tree, v: nat)
    requires SameLeaves(m, at, m', at')
    ensures Leaf(m', at', v) == Leaf(m, at, v)
  {
  }

  lemma SameTwice(m: Mem, at: Tree, m1: Mem, at1: Tree, m2: Mem, at2: Tree)
    requires SameLeaves(m, at, m1, at1) && SameLeaves(m1, at1, m2, at2)
    ensures SameLeaves(m, at, m2, at2)
  {
  }

  /** mappages of one unmapped page either maps it or changes no mapping. */
  lemma NotMapped(m: Mem, at: Tree, m1: Mem, at1: Tree, v: nat, n: nat, frame: nat, flags: nat)
    requires MapsRun(m, at, m1, at1, v, n, frame, flags)
    ensures n == 0 ==> SameLeaves(m, at, m1, at1)
  {
  }

  lemma InsideIgnoresData(m: Mem, at: Tree, m1: Mem, at1: Tree, m2: Mem)
    requires Inside(m, at, m1, at1) && m2.tables == m1.tables && m2.free == m1.free
    ensures Inside(m, at, m2, at1)
  {
  }

  lemma MoreFrames(m: Mem, at: Tree, m': Mem, at': Tree)
    requires Inside(m, at, m', at')
    ensures at.Values <= at'.Values <= at.Values + m.free
  {
    forall f | f in at.Values
      ensures f in at'.Values
    {
      var n :| n in at && at[n] == f;
      assert at'[n] == f;
    }
  }

  /** From the steps of one page of uvmcopy to their sum: allocate f and fill it (m to m1),
      then map it or give it back (m1 to m2). */
  lemma CopyOneDone(m: Mem, at1: Tree, at2: Tree, m1: Mem, m2: Mem, at2': Tree, root1: nat, root2: nat,
                    v: nat, f: nat, flags: nat, ok: bool)
    requires MemOk(m) && MemOk(m1) && MemOk(m2) && f in m.free && m1.tables == m.tables && m1.free == m.free - {f}
    requires IsTree(m, root1, at1) && IsTree(m, root2, at2) && at1.Values !! at2.Values
    requires Inside(m1, at2, Mem(m2.tables, m2.data, m2.free - {f}), at2') && IsTree(m2, root2, at2')
    requires ok ==> MapsRun(m1, at2, m2, at2', v, 1, f, flags) && f !in m2.free
    requires !ok ==> SameLeaves(m1, at2, m2, at2') && f in m2.free
    ensures IsTree(m2, root1, at1) && at1.Values !! at2'.Values && SameLeaves(m, at1, m2, at1)
    ensures m2.free <= m.free <= m2.free + at2'.Values + {f} && at2.Values <= at2'.Values <= at2.Values + m.free
    ensures ok ==> MapsRun(m, at2, m2, at2', v, 1, f, flags)
    ensures !ok ==> SameLeaves(m, at2, m2, at2') && m.free <= m2.free + at2'.Values
  {
    hide IsTree, MapsRun, SameLeaves;
    var mid := Mem(m2.tables, m2.data, m2.free - {f});
    SameTables(m, m1, root1, at1);
    SameTables(m, m1, root2, at2);
    OtherTree(m1, at2, mid, at2', root1, at1);
    MoreFrames(m1, at2, mid, at2');
    SameTables(mid, m2, root1, at1);
    SameTwice(m, at1, m1, at1, mid, at1);
    SameTwice(m, at1, mid, at1, m2, at1);
    if ok {
      MapsAfterSame(m, at2, m1, at2, m2, at2', v, 1, f, flags);
    } else {
      SameTwice(m, at2, m1, at2, m2, at2');
    }
  }

  /** Two spaces agree from page n on. */
  ghost predicate SameFrom(m: Mem, at: Tree, m': Mem, at': Tree, n: nat) {
    forall v: nat :: v >= n ==> Leaf(m', at', v) == Leaf(m, at, v)
  }

  /** uvmcopy after v of n pages, from the space at1 into a space that was at0. */
  ghost predicate CopyState(m: Mem, at1: Tree, at0: Tree, m1: Mem, at2: Tree, v: nat, n: nat) {
    && v <= n && Copied(m, at1, m1, at2, v) && SameLeaves(m, at1, m1, at1)
    && Clear(m1, at2, v, n - v) && SameFrom(m, at0, m1, at2, n)
    && at0.Values <= at2.Values <= at0.Values + m.free
    && m.free <= m1.free + at2.Values + FramesOf(m1, at2, 0, v)
  }

  lemma CopyStart(m: Mem, at1: Tree, at2: Tree, n: nat)
    requires Clear(m, at2, 0, n)
    ensures CopyState(m, at1, at2, m, at2, 0, n)
  {
    CopiedNone(m, at1, at2);
  }

  /** What the next page finds. */
  lemma CopyNext(m: Mem, at1: Tree, at0: Tree, m1: Mem, at2: Tree, v: nat, n: nat)
    requires CopyState(m, at1, at0, m1, at2, v, n) && v < n <= PAGES && Owned(m, at1, 0, n)
    ensures Leaf(m1, at2, v).Unmapped? && Leaf(m1, at1, v) == Leaf(m, at1, v)
    ensures HasPage(m1, at1, v) == HasPage(m, at1, v)
    ensures HasPage(m, at1, v) ==>
      && Leaf(m, at1, v).frame in m.data && Leaf(m, at1, v).frame in m1.data
      && m1.data[Leaf(m, at1, v).frame] == m.data[Leaf(m, at1, v).frame]
  {
  }

  lemma CopySkipped(m: Mem, at1: Tree, at0: Tree, m1: Mem, at2: Tree, v: nat, n: nat)
    requires CopyState(m, at1, at0, m1, at2, v, n) && v < n <= PAGES && !HasPage(m, at1, v)
    ensures CopyState(m, at1, at0, m1, at2, v + 1, n)
  {
    CopiedSkip(m, at1, m1, at2, v);
    FramesOneMore(m1, at2, 0, v);
  }

  /** One page copied, from m1 to m2, on frame f. */
  ghost predicate OneCopied(m1: Mem, at1: Tree, at2: Tree, m2: Mem, at2': Tree, v: nat, f: nat) {
    && HasPage(m1, at1, v) && Leaf(m1, at1, v).frame in m1.data && f in m1.free && f !in m1.data
    && m2.data == m1.data[f := m1.data[Leaf(m1, at1, v).frame]]
    && MapsRun(m1, at2, m2, at2', v, 1, f, Leaf(m1, at1, v).flags)
    && SameLeaves(m1, at1, m2, at1)
    && m2.free <= m1.free <= m2.free + at2'.Values + {f} && at2.Values <= at2'.Values <= at2.Values + m1.free
  }

  /** One page not copied, for lack of memory. */
  ghost predicate OneRefused(m1: Mem, at1: Tree, at2: Tree, m2: Mem, at2': Tree) {
    && m2.data == m1.data && SameLeaves(m1, at1, m2, at1) && SameLeaves(m1, at2, m2, at2')
    && m2.free <= m1.free <= m2.free + at2'.Values && at2.Values <= at2'.Values <= at2.Values + m1.free
  }

  lemma FewerThan(m: Mem, at1: Tree, m1: Mem, at2: Tree, v: nat)
    requires Copied(m, at1, m1, at2, v)
    ensures m1.free <= m.free
  {
  }

  lemma CopyMade(m: Mem, at1: Tree, at0: Tree, m1: Mem, at2: Tree, m2: Mem, at2': Tree, v: nat, n: nat, f: nat)
    requires MemOk(m) && CopyState(m, at1, at0, m1, at2, v, n) && v < n <= PAGES && Owned(m, at1, 0, n)
    requires OneCopied(m1, at1, at2, m2, at2', v, f)
    ensures CopyState(m, at1, at0, m2, at2', v + 1, n)
  {
    hide Copied, Owned;
    FewerThan(m, at1, m1, at2, v);
    CopyNext(m, at1, at0, m1, at2, v, n);
    CopiedPageMore(m, at1, m1, at2, m2, at2', v, f);
    FramesOneMore(m2, at2', 0, v);
    FrameOfOne(m2, at2', v);
    SameFrames(m1, at2, m2, at2', v);
  }

  lemma CopyUndone(m: Mem, at1: Tree, at0: Tree, m1: Mem, at2: Tree, m2: Mem, at2': Tree, v: nat, n: nat)
    requires CopyState(m, at1, at0, m1, at2, v, n) && OneRefused(m1, at1, at2, m2, at2')
    ensures CopyState(m, at1, at0, m2, at2', v, n)
  {
    SameFrames(m1, at2, m2, at2', v);
    forall w: nat | w < v
      ensures PageCopied(m, at1, m2, at2', w)
    {
      assert PageCopied(m, at1, m1, at2, w);
    }
  }

  /** The error path: unmapping what was copied leaves the parent and all data as before. */
  lemma CopyFreed(m: Mem, at1: Tree, at0: Tree, m1: Mem, at2: Tree, m2: Mem, v: nat, n: nat)
    requires MemOk(m) && CopyState(m, at1, at0, m1, at2, v, n) && n <= PAGES && Unmaps(m1, at2, m2, 0, v)
    requires m2.data == m1.data - FramesOf(m1, at2, 0, v) && m2.free == m1.free + FramesOf(m1, at2, 0, v)
    ensures m2.data == m.data && m2.free <= m.free <= m2.free + at2.Values
    ensures Clear(m, at0, 0, n) ==> SameLeaves(m, at0, m2, at2)
  {
    forall f | f in FramesOf(m1, at2, 0, v)
      ensures f in m.free
    {
      var w: nat :| w < v && HasPage(m1, at2, w) && Leaf(m1, at2, w).frame == f;
      assert PageCopied(m, at1, m1, at2, w);
    }
  }

  lemma CopiedNotBare(m: Mem, at1: Tree, m1: Mem, at2: Tree, v: nat)
    requires Copied(m, at1, m1, at2, v) && NoBareV(m, at1, 0, v)
    ensures NoBareV(m1, at2, 0, v)
  {
    forall w: nat | w < v && HasPage(m1, at2, w)
      ensures Leaf(m1, at2, w).flags != 1
    {
      assert PageCopied(m, at1, m1, at2, w);
    }
  }

  /** Unmapping in one tree leaves another tree alone. */
  lemma OtherTreeUnmapped(m: Mem, at: Tree, m': Mem, root1: nat, at1: Tree)
    requires IsTree(m, root1, at1) && TablesKept(m, at, m') && at1.Values !! at.Values
    ensures IsTree(m', root1, at1) && SameLeaves(m, at1, m', at1)
  {
    forall n | n in at1
      ensures at1[n] in m.tables && at1[n] in m'.tables && m'.tables[at1[n]] == m.tables[at1[n]] && NodeOk(m', at1, n)
    {
      assert NodeOk(m, at1, n) && at1[n] in at1.Values;
    }
    forall n, i | n in at1 && n.level > 0 && 0 <= i < 512
      ensures EntryOk(m', at1, n, i)
    {
      assert EntryOk(m, at1, n, i);
    }
  }

  /** The very first page is there and cannot be copied: no frame is left once the child's
      missing page-table pages are counted. */
  predicate NoFirstCopy(m: Mem, at1: Tree, at2: Tree, sz: nat) {
    sz > 0 && HasPage(m, at1, 0) && |m.free| <= Missing(at2, 2, 0)
  }

  /** When the first page cannot be copied, the child maps what it did before. */
  lemma NothingCopied(m: Mem, at1: Tree, at0: Tree, m1: Mem, at2: Tree, n: nat)
    requires CopyState(m, at1, at0, m1, at2, 0, n) && Clear(m, at0, 0, n) && n <= PAGES
    ensures FramesOf(m1, at2, 0, PAGES) == FramesOf(m, at0, 0, PAGES) && SameLeaves(m, at1, m1, at1)
  {
    forall v: nat
      ensures Leaf(m1, at2, v) == Leaf(m, at0, v)
    {
    }
    assert forall v: nat :: HasPage(m1, at2, v) <==> HasPage(m, at0, v);
  }

  lemma FirstCopy(m: Mem, at1: Tree, at2: Tree, sz: nat)
    ensures NoFirstCopy(m, at1, at2, sz) <==> sz > 0 && HasPage(m, at1, 0) && |m.free| <= Missing(at2, 2, 0)
  {
  }

  /** Two spaces show a program the same bytes on their first n pages. */
  ghost predicate SameBytes(m: Mem, at: Tree, m': Mem, at': Tree, n: nat) {
    forall a: nat :: a / 4096 < n ==> ByteAt(m', at', a) == ByteAt(m, at, a)
  }

  /** A frame taken from the allocator and filled, and page-table pages made: a space is as
      it was. */
  lemma SameSpace(m: Mem, m1: Mem, at: Tree, n: nat)
    requires SameLeaves(m, at, m1, at) && Owned(m, at, 0, n)
    requires forall f :: f in m.data ==> f in m1.data && m1.data[f] == m.data[f]
    ensures SameBytes(m, at, m1, at, n) && Owned(m1, at, 0, n)
  {
    forall v: nat
      ensures Leaf(m1, at, v) == Leaf(m, at, v) && HasPage(m1, at, v) == HasPage(m, at, v)
    {
      SameLeaf(m, at, m1, at, v);
    }
  }

  /** After fork's copy of n pages: the child sees what the parent saw, the parent sees it
      still, and they share no frame. */
  ghost predicate Forked(m: Mem, at1: Tree, m1: Mem, at2: Tree, n: nat) {
    && Copied(m, at1, m1, at2, n)
    && SameBytes(m, at1, m1, at2, n) && SameBytes(m, at1, m1, at1, n)
    && FramesOf(m1, at1, 0, n) !! FramesOf(m1, at2, 0, n)
  }

  lemma CopyResult(m: Mem, at1: Tree, at0: Tree, m1: Mem, at2: Tree, n: nat)
    requires MemOk(m) && CopyState(m, at1, at0, m1, at2, n, n) && Owned(m, at1, 0, n)
    ensures Forked(m, at1, m1, at2, n) && SameLeaves(m, at1, m1, at1)
    ensures Owned(m1, at2, 0, n) && SameFrom(m, at0, m1, at2, n)
  {
    forall a: nat | a / 4096 < n
      ensures ByteAt(m1, at2, a) == ByteAt(m, at1, a) == ByteAt(m1, at1, a)
    {
      CopiedView(m, at1, m1, at2, n, a);
    }
    CopiedApart(m, at1, m1, at2, n);
  }

  lemma CopyStateParts(m: Mem, at1: Tree, at0: Tree, m1: Mem, at2: Tree, v: nat, n: nat)
    requires CopyState(m, at1, at0, m1, at2, v, n)
    ensures Copied(m, at1, m1, at2, v) && SameLeaves(m, at1, m1, at1) && Owned(m1, at2, 0, v)
    ensures at0.Values <= at2.Values <= at0.Values + m.free
  {
  }
}
