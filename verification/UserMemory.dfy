/** Demand allocation and the copies between kernel and user memory, on values. */
module UserMemory {
  import opened ByteSeq
  import opened PageTable
  import opened PageCopy
  import T = PageTree

  /** A user address space: its pages below the trapframe have frames of their own, and
      no page above is open to the user. */
  ghost predicate Space(m: Mem, at: Tree) {
    && Owned(m, at, 0, USER_PAGES)
    && (forall v: nat :: HasPage(m, at, v) && U(Leaf(m, at, v).flags) ==> v < USER_PAGES)
  }

  // ----- Areas of memory -----

  datatype Area = Area(begin: nat, end: nat, flags: nat)

  predicate Covers(a: Area, addr: nat) {
    a.begin <= addr < a.end
  }

  /** The first area of the list that holds an address is the j-th; none is if j is |areas|. */
  ghost predicate IsArea(areas: seq<Area>, addr: nat, j: nat) {
    && j <= |areas| && (j < |areas| ==> Covers(areas[j], addr))
    && forall i :: 0 <= i < j ==> !Covers(areas[i], addr)
  }

  ghost predicate AreasBelow(areas: seq<Area>) {
    forall j :: 0 <= j < |areas| ==> areas[j].end <= MAXVA - 8192
  }

  datatype Cause = Read | Write | Exec

  predicate Allows(a: Area, c: Cause) {
    match c
    case Read => R(a.flags)
    case Write => W(a.flags)
    case Exec => X(a.flags)
  }

  /** The flags of a page of an area. */
  function AreaPerm(a: Area): nat {
    16 + (if R(a.flags) then 2 else 0) + (if W(a.flags) then 4 else 0) + (if X(a.flags) then 8 else 0)
  }

  lemma AreaPermBits(a: Area)
    ensures var p := WithV(AreaPerm(a));
      AreaPerm(a) < 1024 && U(p) && R(p) == R(a.flags) && W(p) == W(a.flags) && X(p) == X(a.flags)
    ensures forall c :: Allows(a, c) ==> T.HasPermission(WithV(AreaPerm(a)))
  {
  }

  // ----- Demand allocation -----

  /** From m to m', pages may have been added to the space, all of zeros. */
  ghost predicate Backs(m: Mem, at: Tree, m': Mem, at': Tree) {
    && (forall v: nat :: HasPage(m, at, v) ==> Leaf(m', at', v) == Leaf(m, at, v))
    && (forall v: nat :: HasPage(m', at', v) && !HasPage(m, at, v) ==> U(Leaf(m', at', v).flags))
    && (forall v: nat :: Leaf(m', at', v) == Leaf(m, at, v)
          || (Leaf(m', at', v).Mapped? && T.HasPermission(Leaf(m', at', v).flags)))
    && SameView(m, at, m', at')
    && (forall f :: f in m.data ==> f in m'.data && m'.data[f] == m.data[f])
    && (forall f :: f in m.tables && f !in at.Values ==> f in m'.tables && m'.tables[f] == m.tables[f])
    && (forall f :: f in at'.Values ==> f in at.Values || f in m.free)
    && (forall f :: f in FramesOf(m', at', 0, USER_PAGES) ==> f in FramesOf(m, at, 0, USER_PAGES) || f in m.free)
    && m'.free <= m.free
  }

  ghost predicate SameView(m: Mem, at: Tree, m': Mem, at': Tree) {
    forall a: nat :: ByteAt(m', at', a) == ByteAt(m, at, a)
  }

  lemma BacksBoth(m: Mem, at: Tree, m1: Mem, at1: Tree, m2: Mem, at2: Tree)
    requires Backs(m, at, m1, at1) && Backs(m1, at1, m2, at2) && MemOk(m)
    ensures Backs(m, at, m2, at2)
  {
    hide FramesOf;
  }

  /** A new page has the permissions of an area that allows something. */
  lemma BacksPermitted(m: Mem, at: Tree, m': Mem, at': Tree)
    requires Backs(m, at, m', at')
    ensures T.Permitted(m, at) ==> T.Permitted(m', at')
  {
  }

  lemma SamePermitted(m: Mem, at: Tree, m': Mem, at': Tree)
    requires SameLeaves(m, at, m', at')
    ensures T.Permitted(m, at) ==> T.Permitted(m', at')
  {
    if T.Permitted(m, at) {
      forall v: nat | Leaf(m', at', v).Mapped?
        ensures T.HasPermission(Leaf(m', at', v).flags)
      {
        assert Leaf(m', at', v) == Leaf(m, at, v);
      }
    }
  }

  /** do_allocate has a page to allocate: an area allows the access and the page is not
      there. */
  ghost predicate Wanted(m: Mem, at: Tree, areas: seq<Area>, j: nat, cause: Cause, v: nat) {
    j < |areas| && Allows(areas[j], cause) && !HasPage(m, at, v)
  }

  lemma ExtendsBacks(m: Mem, at: Tree, m': Mem, at': Tree)
    requires MemOk(m) && Inside(m, at, m', at') && SameLeaves(m, at, m', at') && m'.data == m.data
    ensures Backs(m, at, m', at') && (Space(m, at) ==> Space(m', at'))
  {
    SameFrames(m, at, m', at', USER_PAGES);
    forall a: nat
      ensures ByteAt(m', at', a) == ByteAt(m, at, a)
    {
      SameLeaf(m, at, m', at', a / 4096);
    }
    forall f | f in at'.Values
      ensures f in at.Values || f in m.free
    {
      var n :| n in at' && at'[n] == f;
      assert n in at ==> at[n] == f;
    }
    forall v: nat
      ensures HasPage(m', at', v) == HasPage(m, at, v)
    {
      SameLeaf(m, at, m', at', v);
    }
  }

  /** A fresh frame of zeros mapped at page v. */
  lemma FreshBacks(m: Mem, at: Tree, m1: Mem, m': Mem, at': Tree, v: nat, f: nat, flags: nat)
    requires MemOk(m) && f in m.free && m1 == Mem(m.tables, m.data[f := Zeros(4096)], m.free - {f})
    requires Inside(m1, at, m', at') && m'.data == m1.data && v < USER_PAGES && !HasPage(m, at, v)
    requires MapsRun(m1, at, m', at', v, 1, f, flags)
    ensures Leaf(m', at', v) == Mapped(f, flags)
    ensures forall w: nat :: w != v ==> Leaf(m', at', w) == Leaf(m, at, w)
  {
    forall w: nat
      ensures Leaf(m1, at, w) == Leaf(m, at, w)
    {
    }
  }

  lemma FreshSpace(m: Mem, at: Tree, m': Mem, at': Tree, v: nat, f: nat, flags: nat)
    requires MemOk(m) && Space(m, at) && f in m.free && m'.data == m.data[f := Zeros(4096)] && v < USER_PAGES
    requires Leaf(m', at', v) == Mapped(f, flags) && !HasPage(m, at, v)
    requires forall w: nat :: w != v ==> Leaf(m', at', w) == Leaf(m, at, w)
    ensures Space(m', at')
  {
    forall w: nat | w != v
      ensures HasPage(m', at', w) == HasPage(m, at, w)
    {
    }
  }

  lemma FreshView(m: Mem, at: Tree, m': Mem, at': Tree, v: nat, f: nat, flags: nat, a: nat)
    requires MemOk(m) && Space(m, at) && f in m.free && m'.data == m.data[f := Zeros(4096)] && v < USER_PAGES
    requires Leaf(m', at', v) == Mapped(f, flags) && !HasPage(m, at, v)
    requires forall w: nat :: w != v ==> Leaf(m', at', w) == Leaf(m, at, w)
    ensures ByteAt(m', at', a) == ByteAt(m, at, a)
  {
    var w := a / 4096;
    if w != v && HasPage(m, at, w) && w < USER_PAGES {
      assert Leaf(m, at, w).frame in m.data;
    }
  }

  lemma FreshFrames(m: Mem, at: Tree, m': Mem, at': Tree, v: nat, f: nat, flags: nat)
    requires Leaf(m', at', v) == Mapped(f, flags) && v < USER_PAGES && f in m.free
    requires forall w: nat :: w != v ==> Leaf(m', at', w) == Leaf(m, at, w)
    ensures forall g :: g in FramesOf(m', at', 0, USER_PAGES) ==> g in FramesOf(m, at, 0, USER_PAGES) || g in m.free
  {
    forall g | g in FramesOf(m', at', 0, USER_PAGES)
      ensures g in FramesOf(m, at, 0, USER_PAGES) || g in m.free
    {
      var w: nat :| w < USER_PAGES && HasPage(m', at', w) && Leaf(m', at', w).frame == g;
      if w != v {
        assert HasPage(m, at, w);
      }
    }
  }

  lemma FreshAllBacks(m: Mem, at: Tree, m1: Mem, m': Mem, at': Tree, v: nat, f: nat, flags: nat)
    requires MemOk(m) && Space(m, at) && f in m.free && m1 == Mem(m.tables, m.data[f := Zeros(4096)], m.free - {f})
    requires Inside(m1, at, m', at') && m'.data == m1.data && v < USER_PAGES && !HasPage(m, at, v)
    requires MapsRun(m1, at, m', at', v, 1, f, flags) && U(flags) && T.HasPermission(flags)
    ensures Backs(m, at, m', at') && Space(m', at') && Leaf(m', at', v) == Mapped(f, flags)
  {
    hide Space, FramesOf, MapsRun, Leaf;
    FreshBacks(m, at, m1, m', at', v, f, flags);
    FreshSpace(m, at, m', at', v, f, flags);
    FreshFrames(m, at, m', at', v, f, flags);
    forall a: nat
      ensures ByteAt(m', at', a) == ByteAt(m, at, a)
    {
      FreshView(m, at, m', at', v, f, flags, a);
    }
    forall g | g in at'.Values
      ensures g in at.Values || g in m.free
    {
      var n :| n in at' && at'[n] == g;
      assert n in at ==> at[n] == g;
    }
  }

  // ----- Writing and reading user memory -----

  ghost predicate Wrote(m: Mem, at: Tree, m': Mem, at': Tree, d: nat, bytes: seq<nat>) {
    forall a: nat :: ByteAt(m', at', a) == if d <= a < d + |bytes| then bytes[a - d] else ByteAt(m, at, a)
  }

  lemma WroteBoth(m: Mem, at: Tree, m1: Mem, at1: Tree, m2: Mem, at2: Tree, d: nat, b1: seq<nat>, b2: seq<nat>)
    requires Wrote(m, at, m1, at1, d, b1) && Wrote(m1, at1, m2, at2, d + |b1|, b2)
    ensures Wrote(m, at, m2, at2, d, b1 + b2)
  {
  }

  /** The bytes a program sees from address d on. */
  ghost function Bytes(m: Mem, at: Tree, d: nat, n: nat): (r: seq<nat>)
    ensures |r| == n
  {
    seq<nat>(n, i requires 0 <= i => ByteAt(m, at, d + i))
  }

  lemma BytesWritten(m: Mem, at: Tree, m': Mem, at': Tree, d: nat, bytes: seq<nat>)
    requires Wrote(m, at, m', at', d, bytes)
    ensures Bytes(m', at', d, |bytes|) == bytes
  {
    forall i | 0 <= i < |bytes|
      ensures Bytes(m', at', d, |bytes|)[i] == bytes[i]
    {
      assert ByteAt(m', at', d + i) == bytes[i];
    }
  }

  lemma ChunkWrites(m: Mem, at: Tree, v: nat, off: nat, bytes: seq<nat>, m': Mem, a: nat)
    requires MemOk(m) && Space(m, at) && v < USER_PAGES && HasPage(m, at, v) && off + |bytes| <= 4096
    requires Leaf(m, at, v).frame in m.data && |m.data[Leaf(m, at, v).frame]| == 4096
    requires m' == m.(data := m.data[Leaf(m, at, v).frame := Patched(m.data[Leaf(m, at, v).frame], off, bytes)])
    ensures ByteAt(m', at, a)
         == if v * 4096 + off <= a < v * 4096 + off + |bytes| then bytes[a - (v * 4096 + off)] else ByteAt(m, at, a)
  {
    var w, i := a / 4096, a % 4096;
    assert a == w * 4096 + i;
    assert Leaf(m', at, w) == Leaf(m, at, w);
    if w != v && HasPage(m, at, w) && w < USER_PAGES {
      assert Leaf(m, at, w).frame != Leaf(m, at, v).frame;
    }
  }

  /** The chunk's effect on the whole space. */
  ghost predicate Patches(m: Mem, at: Tree, m': Mem) {
    && m'.tables == m.tables && m'.free == m.free && m'.data.Keys == m.data.Keys
    && (forall f :: f in m.data && f !in FramesOf(m, at, 0, USER_PAGES) ==> m'.data[f] == m.data[f])
  }

  lemma ChunkWrote(m: Mem, root: nat, at: Tree, v: nat, off: nat, bytes: seq<nat>, m': Mem)
    requires MemOk(m) && IsTree(m, root, at) && Space(m, at)
    requires v < USER_PAGES && HasPage(m, at, v) && off + |bytes| <= 4096
    requires Leaf(m, at, v).frame in m.data && |m.data[Leaf(m, at, v).frame]| == 4096
    requires m' == m.(data := m.data[Leaf(m, at, v).frame := Patched(m.data[Leaf(m, at, v).frame], off, bytes)])
    ensures Wrote(m, at, m', at, v * 4096 + off, bytes) && Patches(m, at, m')
    ensures MemOk(m') && IsTree(m', root, at) && SameLeaves(m, at, m', at) && Space(m', at)
  {
    hide IsTree;
    forall a: nat
      ensures ByteAt(m', at, a)
           == if v * 4096 + off <= a < v * 4096 + off + |bytes| then bytes[a - (v * 4096 + off)] else ByteAt(m, at, a)
    {
      ChunkWrites(m, at, v, off, bytes, m', a);
    }
    SameTables(m, m', root, at);
    PatchSpace(m, at, v, m');
  }

  lemma PatchSpace(m: Mem, at: Tree, v: nat, m': Mem)
    requires Space(m, at) && SameLeaves(m, at, m', at) && m'.data.Keys == m.data.Keys
    requires v < USER_PAGES && HasPage(m, at, v)
    ensures Space(m', at) && Leaf(m, at, v).frame in FramesOf(m, at, 0, USER_PAGES)
  {
    forall w: nat
      ensures HasPage(m', at, w) == HasPage(m, at, w) && Leaf(m', at, w) == Leaf(m, at, w)
    {
    }
  }

  /** A page open to the user is backed by a whole frame of bytes. */
  lemma PageFrame(m: Mem, at: Tree, v: nat)
    requires MemOk(m) && Space(m, at)
    ensures Open(m, at, v) ==>
      && v < USER_PAGES && Leaf(m, at, v).frame > 0
      && Leaf(m, at, v).frame in m.data && |m.data[Leaf(m, at, v).frame]| == 4096
  {
  }

  lemma ChunkReads(m: Mem, at: Tree, v: nat, off: nat, n: nat)
    requires MemOk(m) && v < USER_PAGES && HasPage(m, at, v) && off + n <= 4096
    requires Leaf(m, at, v).frame in m.data && |m.data[Leaf(m, at, v).frame]| == 4096
    ensures m.data[Leaf(m, at, v).frame][off..off + n] == Bytes(m, at, v * 4096 + off, n)
  {
    var part, bytes := m.data[Leaf(m, at, v).frame][off..off + n], Bytes(m, at, v * 4096 + off, n);
    forall i | 0 <= i < n
      ensures part[i] == bytes[i]
    {
      var a := v * 4096 + off + i;
      assert a / 4096 == v && a % 4096 == off + i;
      assert bytes[i] == ByteAt(m, at, a) == FrameByte(m, Leaf(m, at, v).frame, off + i);
    }
  }

  lemma BytesBoth(m: Mem, at: Tree, d: nat, n: nat, k: nat)
    ensures Bytes(m, at, d, n) + Bytes(m, at, d + n, k) == Bytes(m, at, d, n + k)
  {
  }

  lemma SameViewBytes(m: Mem, at: Tree, m': Mem, at': Tree, d: nat, n: nat)
    requires SameView(m, at, m', at')
    ensures Bytes(m', at', d, n) == Bytes(m, at, d, n)
  {
  }

  // ----- Pages open to the user -----

  predicate Open(m: Mem, at: Tree, v: nat) {
    HasPage(m, at, v) && U(Leaf(m, at, v).flags)
  }

  /** The page's area allows the access, and the page is not closed to the user. */
  ghost predicate Fine(m: Mem, at: Tree, areas: seq<Area>, cause: Cause, v: nat) {
    && (forall j: nat :: IsArea(areas, v * 4096, j) ==> j < |areas| && Allows(areas[j], cause))
    && (HasPage(m, at, v) ==> Open(m, at, v))
  }

  /** Pages that demand allocation added do not spoil another page's case. */
  lemma FineBefore(m: Mem, at: Tree, m': Mem, at': Tree, areas: seq<Area>, cause: Cause, v: nat)
    requires Backs(m, at, m', at') && Fine(m, at, areas, cause, v)
    ensures Fine(m', at', areas, cause, v)
  {
  }

  /** The page may not be accessed: its area forbids it, or it is closed to the user. */
  predicate Refused(m: Mem, at: Tree, area: Area, cause: Cause, v: nat) {
    !Allows(area, cause) || (HasPage(m, at, v) && !Open(m, at, v))
  }

  ghost predicate AllFine(m: Mem, at: Tree, areas: seq<Area>, cause: Cause, first: nat, last: nat) {
    forall v: nat :: first <= v < last ==> Fine(m, at, areas, cause, v)
  }

  ghost predicate AllOpen(m: Mem, at: Tree, first: nat, last: nat) {
    forall v: nat :: first <= v < last ==> Open(m, at, v)
  }

  lemma BacksKeepsOpen(m: Mem, at: Tree, m': Mem, at': Tree, first: nat, last: nat)
    requires Backs(m, at, m', at') && AllOpen(m, at, first, last) && Open(m', at', last)
    ensures AllOpen(m', at', first, last + 1)
  {
    forall v: nat | first <= v < last
      ensures Open(m', at', v)
    {
      assert Open(m, at, v);
    }
  }

  /** The page after the last that do_allocate_range visits; both sums wrap at 64 bits. */
  function RangeEnd(addr: nat, len: nat): nat {
    ((addr + len) % WORD + 4095) % WORD / 4096
  }

  /** Without wrap-around the visited pages hold the whole range. */
  lemma RangeCovers(addr: nat, len: nat, a: nat)
    requires addr + len + 4095 < WORD && addr <= a < addr + len
    ensures addr / 4096 <= a / 4096 < RangeEnd(addr, len)
  {
    assert RangeEnd(addr, len) == (addr + len + 4095) / 4096;
  }

  lemma NoneOpen(m: Mem, at: Tree, first: nat)
    ensures AllOpen(m, at, first, first)
  {
  }

  lemma FewerOpen(m: Mem, at: Tree, first: nat, last: nat, end: nat)
    requires AllOpen(m, at, first, last) && end <= last
    ensures AllOpen(m, at, first, end)
  {
  }

  lemma NotAllocated(m: Mem, f: nat)
    requires MemOk(m) && f in m.free
    ensures f !in m.data && f !in m.tables && m.data[f := Zeros(4096)] - {f} == m.data
  {
  }

  /** A frame taken and given back drops out of the account. */
  lemma InsideAgain(m: Mem, at: Tree, m1: Mem, m': Mem, root: nat, at': Tree, f: nat)
    requires MemOk(m) && MemOk(m') && f in m.free && m1.tables == m.tables && m1.free == m.free - {f} && f in m'.free
    requires Inside(m1, at, Mem(m'.tables, m'.data, m'.free - {f}), at')
    requires IsTree(m', root, at')
    ensures Inside(m, at, m', at')
  {
    forall g | g in at'.Values
      ensures g in m'.tables
    {
      var n :| n in at' && at'[n] == g;
      NodeTable(m', root, at', n);
    }
  }

  lemma PatchNone(m: Mem, at: Tree, d: nat)
    ensures Wrote(m, at, m, at, d, []) && Patches(m, at, m)
  {
  }

  lemma PatchBoth(m: Mem, at: Tree, m1: Mem, m2: Mem)
    requires Patches(m, at, m1) && Patches(m1, at, m2) && SameLeaves(m, at, m1, at)
    ensures Patches(m, at, m2)
  {
    SameFrames(m, at, m1, at, USER_PAGES);
  }

  lemma SameOpen(m: Mem, at: Tree, m': Mem, at': Tree, v: nat)
    requires SameLeaves(m, at, m', at')
    ensures Open(m', at', v) == Open(m, at, v)
  {
    SameLeaf(m, at, m', at', v);
  }

  lemma OneOpen(m: Mem, at: Tree, first: nat, last: nat, v: nat)
    requires AllOpen(m, at, first, last) && first <= v < last
    ensures Open(m, at, v)
  {
  }

  lemma BackedView(m: Mem, at: Tree, m': Mem, at': Tree, d: nat)
    requires Backs(m, at, m', at')
    ensures SameView(m, at, m', at') && Wrote(m, at, m', at', d, [])
  {
  }

  /** Only frames of the space, or fresh ones, have changed. */
  ghost predicate Touches(m: Mem, at: Tree, m': Mem, at': Tree) {
    && (forall f :: f in m.data && f !in FramesOf(m, at, 0, USER_PAGES) ==> f in m'.data && m'.data[f] == m.data[f])
    && (forall f :: f in m.tables && f !in at.Values ==> f in m'.tables && m'.tables[f] == m.tables[f])
    && (forall f :: f in at'.Values ==> f in at.Values || f in m.free)
    && (forall f :: f in FramesOf(m', at', 0, USER_PAGES) ==> f in FramesOf(m, at, 0, USER_PAGES) || f in m.free)
    && m'.free <= m.free
  }

  lemma BacksPatches(m: Mem, at: Tree, m1: Mem, at1: Tree, m2: Mem)
    requires MemOk(m) && Backs(m, at, m1, at1) && Patches(m1, at1, m2) && SameLeaves(m1, at1, m2, at1)
    ensures Touches(m, at, m2, at1)
  {
    SameFrames(m1, at1, m2, at1, USER_PAGES);
    hide FramesOf, SameView;
  }

  /** Another address space, on other frames, still sees the same. */
  lemma OtherSpace(m: Mem, at: Tree, m': Mem, at': Tree, root1: nat, at1: Tree)
    requires MemOk(m) && Touches(m, at, m', at') && IsTree(m, root1, at1) && Space(m, at1) && at1.Values !! at.Values
    requires FramesOf(m, at1, 0, USER_PAGES) !! FramesOf(m, at, 0, USER_PAGES)
    ensures IsTree(m', root1, at1) && SameLeaves(m, at1, m', at1) && SameView(m, at1, m', at1)
    ensures at1.Values !! at'.Values && FramesOf(m', at1, 0, USER_PAGES) !! FramesOf(m', at', 0, USER_PAGES)
  {
    OtherTreeTouched(m, at, m', at', root1, at1);
    forall a: nat
      ensures ByteAt(m', at1, a) == ByteAt(m, at1, a)
    {
      var v := a / 4096;
      SameLeaf(m, at1, m', at1, v);
      if HasPage(m, at1, v) && v < USER_PAGES {
        assert Leaf(m, at1, v).frame in FramesOf(m, at1, 0, USER_PAGES);
      }
    }
    SameFrames(m, at1, m', at1, USER_PAGES);
    OwnedFrames(m, at1);
  }

  lemma OwnedFrames(m: Mem, at: Tree)
    requires Space(m, at)
    ensures FramesOf(m, at, 0, USER_PAGES) <= m.data.Keys
  {
  }

  lemma OtherTreeTouched(m: Mem, at: Tree, m': Mem, at': Tree, root1: nat, at1: Tree)
    requires MemOk(m) && Touches(m, at, m', at') && IsTree(m, root1, at1) && at1.Values !! at.Values
    ensures IsTree(m', root1, at1) && SameLeaves(m, at1, m', at1) && at1.Values !! at'.Values
  {
    hide FramesOf;
    forall n | n in at1
      ensures at1[n] in m.tables && at1[n] in m'.tables && m'.tables[at1[n]] == m.tables[at1[n]] && NodeOk(m', at1, n)
    {
      assert NodeOk(m, at1, n) && at1[n] in at1.Values;
    }
    forall n, i | n in at1 && n.level > 0 && 0 <= i < 512
      ensures EntryOk(m', at1, n, i)
    {
      assert EntryOk(m, at1, n, i);
    }
    forall f | f in at1.Values
      ensures f !in at'.Values
    {
      var k :| k in at1 && at1[k] == f;
      assert f in m.tables && f !in m.free;
    }
  }

  /** What an error code of do_allocate other than lack of memory says about the page. */
  lemma NotFine(m: Mem, at: Tree, m1: Mem, at1: Tree, areas: seq<Area>, cause: Cause, v: nat, j: nat, refused: bool)
    requires Backs(m, at, m1, at1) && IsArea(areas, v * 4096, j)
    requires refused ==> j == |areas| || Refused(m1, at1, areas[j], cause, v)
    ensures refused ==> !Fine(m, at, areas, cause, v)
  {
    if Fine(m, at, areas, cause, v) {
      FineBefore(m, at, m1, at1, areas, cause, v);
    }
  }

  /** A frame of bytes filled with another's. */
  lemma FilledMemOk(m: Mem, f: nat, from: nat)
    requires MemOk(m) && f in m.data && from in m.data
    ensures MemOk(m.(data := m.data[f := m.data[from]]))
  {
  }

  lemma DataNotFree(m: Mem, f: nat)
    requires MemOk(m) && f in m.data
    ensures f !in m.free
  {
  }

  /** A forked child has the parent's permissions, and nothing mapped that the parent's
      pages or its own top pages do not account for. */
  lemma ForkedChild(m: Mem, at1: Tree, at0: Tree, m1: Mem, at2: Tree, n: nat)
    requires Forked(m, at1, m1, at2, n) && SameFrom(m, at0, m1, at2, n) && T.Permitted(m, at1) && n <= PAGES
    ensures T.Permitted(m, at0) ==> T.Permitted(m1, at2)
    ensures T.UserAndTop(m, at0, 0) ==> T.UserAndTop(m1, at2, n)
  {
    hide SameBytes, FramesOf, Owned;
    forall v: nat | v < n && Leaf(m1, at2, v).Mapped?
      ensures T.HasPermission(Leaf(m1, at2, v).flags)
    {
      assert PageCopied(m, at1, m1, at2, v);
    }
  }

  /** What fork gives the child: the parent's bytes on frames of its own, and a page table
      that proc_freepagetable can take back. */
  ghost predicate Born(m: Mem, at1: Tree, m1: Mem, at2: Tree, n: nat) {
    && SameBytes(m, at1, m1, at2, n) && SameBytes(m, at1, m1, at1, n)
    && FramesOf(m1, at1, 0, n) !! FramesOf(m1, at2, 0, n)
    && Owned(m1, at2, 0, n) && T.Permitted(m1, at2) && T.UserAndTop(m1, at2, n)
  }

  /** A trapframe, cleared, and the page-table pages of `at` have been taken from m. */
  ghost predicate Allocated(m: Mem, m2: Mem, at: Tree, tf: nat) {
    && tf in m.free && tf !in at.Values && at.Values <= m.free
    && m2.data == m.data[tf := Zeros(4096)] && m2.free == m.free - {tf} - at.Values
  }

  lemma TrapframeThere(m: Mem, m2: Mem, at: Tree, tf: nat)
    requires Allocated(m, m2, at, tf)
    ensures tf in m2.data
  {
  }

  /** After allocproc: m1 has the trapframe, m2 the child's page table too. */
  lemma ReadyToCopy(m: Mem, m1: Mem, m2: Mem, root1: nat, at1: Tree, at0: Tree, tf: nat, sz: nat)
    requires MemOk(m) && MemOk(m1) && tf in m.free && m1 == Mem(m.tables, m.data[tf := Zeros(4096)], m.free - {tf})
    requires IsTree(m, root1, at1) && IsTree(m1, root1, at1) && SameLeaves(m, at1, m1, at1)
    requires Inside(m1, map[], m2, at0) && m2.data == m1.data && T.UserAndTop(m2, at0, 0) && sz <= MAXVA - 8192
    requires T.Permitted(m, at1) && Owned(m, at1, 0, PagesUp(sz))
    ensures IsTree(m2, root1, at1) && at1.Values !! at0.Values && SameLeaves(m, at1, m2, at1)
    ensures Owned(m2, at1, 0, PagesUp(sz)) && T.Permitted(m2, at1) && Clear(m2, at0, 0, PagesUp(sz))
    ensures SameBytes(m, at1, m2, at1, PagesUp(sz)) && Allocated(m, m2, at0, tf)
  {
    hide IsTree, SameLeaves, Owned, T.Permitted, Clear, T.UserAndTop, Leaf, SameBytes;
    MoreFrames(m1, map[], m2, at0);
    OtherTree(m1, map[], m2, at0, root1, at1);
    SameTwice(m, at1, m1, at1, m2, at1);
    SameSpace(m, m2, at1, PagesUp(sz));
    SamePermitted(m, at1, m2, at1);
    assert PagesUp(sz) <= PAGES - 2;
    T.ClearBelowTop(m2, at0, PagesUp(sz));
  }

  lemma SameFirst(m: Mem, m': Mem, at: Tree)
    requires SameLeaves(m, at, m', at)
    ensures HasPage(m', at, 0) <==> HasPage(m, at, 0)
  {
    assert Leaf(m', at, 0) == Leaf(m, at, 0);
  }

  lemma ChildOf(m: Mem, m2: Mem, m3: Mem, at1: Tree, at2: Tree, n: nat)
    requires SameBytes(m, at1, m2, at1, n) && Forked(m2, at1, m3, at2, n) && Owned(m3, at2, 0, n)
    requires T.Permitted(m3, at2) && T.UserAndTop(m3, at2, n)
    ensures Born(m, at1, m3, at2, n)
  {
    hide Copied, FramesOf, Owned, T.Permitted, T.UserAndTop, ByteAt;
  }

  /** What is missing after a failed fork: exactly the child's page-table pages. */
  lemma LostTables(m: Mem, m2: Mem, m3: Mem, root2: nat, at0: Tree, at2: Tree, tf: nat)
    requires MemOk(m) && Allocated(m, m2, at0, tf) && MemOk(m3) && IsTree(m3, root2, at2) && m3.data == m2.data
    requires m3.free <= m2.free <= m3.free + at2.Values && at0.Values <= at2.Values <= at0.Values + m2.free
    ensures m3.data - {tf} == m.data && at2.Values != {}
    ensures at2.Values <= m.free && m3.free + {tf} == m.free - at2.Values
  {
    assert at2[ROOT] in at2.Values;
    forall f | f in at2.Values
      ensures f !in m3.free
    {
      var n :| n in at2 && at2[n] == f;
      assert NodeOk(m3, at2, n);
    }
  }
}
