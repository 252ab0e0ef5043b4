/** Inodes, their blocks and the free map of kernel/fs.c, on values.  A block is 1024
    bytes (BSIZE); an inode has 12 direct pointers (NDIRECT) and one to a block of 256
    further pointers (NINDIRECT). */
module Inode {
  import opened ByteSeq

  datatype Dinode = Dinode(addrs: seq<nat>, size: nat)

  /** The free map, the blocks and the inodes; blocks from `start` on hold file data. */
  datatype Fs = Fs(used: seq<bool>, blocks: map<nat, seq<nat>>, inodes: map<nat, Dinode>, start: nat)

  const MAXFILE := 268

  // ----- Pointers in blocks -----

  /** The 32-bit little-endian word j of a block. */
  function Word(block: seq<nat>, j: nat): nat {
    if 4 * j + 3 < |block|
    then block[4 * j] + 0x100 * block[4 * j + 1] + 0x1_0000 * block[4 * j + 2] + 0x100_0000 * block[4 * j + 3]
    else 0
  }

  function WithWord(block: seq<nat>, j: nat, w: nat): seq<nat>
    requires 4 * j + 3 < |block|
  {
    block[4 * j := w % 0x100][4 * j + 1 := w / 0x100 % 0x100]
         [4 * j + 2 := w / 0x1_0000 % 0x100][4 * j + 3 := w / 0x100_0000 % 0x100]
  }

  lemma WordRoundTrip(block: seq<nat>, j: nat, w: nat, k: nat)
    requires 4 * j + 3 < |block| && 4 * k + 3 < |block| && w < 0x1_0000_0000
    ensures |WithWord(block, j, w)| == |block|
    ensures Word(WithWord(block, j, w), k) == if k == j then w else Word(block, k)
  {
    Digits(w);
  }

  lemma Digits(w: nat)
    requires w < 0x1_0000_0000
    ensures w == w % 0x100 + 0x100 * (w / 0x100 % 0x100)
      + 0x1_0000 * (w / 0x1_0000 % 0x100) + 0x100_0000 * (w / 0x100_0000 % 0x100)
  {
    assert w / 0x1_0000 == w / 0x100 / 0x100 && w / 0x100_0000 == w / 0x100 / 0x100 / 0x100;
  }

  lemma ZeroWord(j: nat)
    requires j < 256
    ensures Word(Zeros(1024), j) == 0
  {
  }

  // ----- Who owns a block -----

  /** A place that can hold a block number: pointer i of an inode (12 is the indirect
      one), or entry j of its indirect block. */
  datatype Slot = Direct(inum: nat, i: nat) | Entry(inum: nat, j: nat)

  predicate IsSlot(fs: Fs, s: Slot) {
    s.inum in fs.inodes && match s case Direct(_, i) => i < 13 case Entry(_, j) => j < 256
  }

  function BlockAt(fs: Fs, b: nat): seq<nat> {
    if b in fs.blocks then fs.blocks[b] else []
  }

  function Addr(fs: Fs, inum: nat, i: nat): nat {
    if inum in fs.inodes && i < |fs.inodes[inum].addrs| then fs.inodes[inum].addrs[i] else 0
  }

  /** The block number in a slot; 0 for none. */
  function Ptr(fs: Fs, s: Slot): nat {
    match s
    case Direct(inum, i) => Addr(fs, inum, i)
    case Entry(inum, j) => if Addr(fs, inum, 12) == 0 then 0 else Word(BlockAt(fs, Addr(fs, inum, 12)), j)
  }

  type Owners = map<nat, Slot>

  ghost predicate SlotOk(fs: Fs, owner: Owners, s: Slot) {
    IsSlot(fs, s) && Ptr(fs, s) != 0 ==> Ptr(fs, s) in owner && owner[Ptr(fs, s)] == s
  }

  ghost predicate OwnerOk(fs: Fs, owner: Owners, b: nat)
    requires b in owner
  {
    fs.start <= b < |fs.used| && fs.used[b] && IsSlot(fs, owner[b]) && Ptr(fs, owner[b]) == b
  }

  ghost predicate Shape(fs: Fs) {
    && 0 < fs.start <= |fs.used| < 0x1_0000_0000
    && (forall b :: 0 <= b < |fs.used| ==> b in fs.blocks && |fs.blocks[b]| == 1024)
    && (forall n :: n in fs.inodes ==> |fs.inodes[n].addrs| == 13)
    && (forall b :: 0 <= b < fs.start ==> fs.used[b])
  }

  /** In the data area a block is marked used exactly when one slot holds it. */
  ghost predicate Ownership(fs: Fs, owner: Owners) {
    && Shape(fs)
    && (forall s :: SlotOk(fs, owner, s))
    && (forall b :: b in owner ==> OwnerOk(fs, owner, b))
    && (forall b :: fs.start <= b < |fs.used| && fs.used[b] ==> b in owner)
  }

  /** The free map agrees with the slots. */
  lemma UsedIffOwned(fs: Fs, owner: Owners, b: nat)
    requires Ownership(fs, owner) && fs.start <= b < |fs.used|
    ensures fs.used[b] <==> exists s :: IsSlot(fs, s) && Ptr(fs, s) == b
    ensures forall s, t :: IsSlot(fs, s) && IsSlot(fs, t) && Ptr(fs, s) == b && Ptr(fs, t) == b ==> s == t
  {
    if fs.used[b] {
      assert OwnerOk(fs, owner, b);
    }
    if s :| IsSlot(fs, s) && Ptr(fs, s) == b {
      assert SlotOk(fs, owner, s);
      assert OwnerOk(fs, owner, b);
    }
    forall s, t | IsSlot(fs, s) && IsSlot(fs, t) && Ptr(fs, s) == b && Ptr(fs, t) == b
      ensures s == t
    {
      assert SlotOk(fs, owner, s) && SlotOk(fs, owner, t);
    }
  }

  lemma SlotsApart(fs: Fs, owner: Owners, s: Slot, t: Slot)
    requires Ownership(fs, owner) && IsSlot(fs, s) && IsSlot(fs, t) && s != t && Ptr(fs, s) != 0
    ensures Ptr(fs, s) != Ptr(fs, t)
  {
    assert SlotOk(fs, owner, s) && SlotOk(fs, owner, t);
  }

  lemma PtrInside(fs: Fs, owner: Owners, s: Slot)
    requires Ownership(fs, owner) && IsSlot(fs, s) && Ptr(fs, s) != 0
    ensures fs.start <= Ptr(fs, s) < |fs.used| && fs.used[Ptr(fs, s)] && Ptr(fs, s) in owner && owner[Ptr(fs, s)] == s
    ensures Ptr(fs, s) in fs.blocks && |fs.blocks[Ptr(fs, s)]| == 1024
  {
    assert SlotOk(fs, owner, s);
    assert OwnerOk(fs, owner, Ptr(fs, s));
  }

  // ----- What a file holds -----

  /** The slot of the bn-th block of a file. */
  function SlotOf(inum: nat, bn: nat): Slot {
    if bn < 12 then Direct(inum, bn) else Entry(inum, bn - 12)
  }

  /** The byte at a position of a file; a block not there reads as zero. */
  function ByteIn(fs: Fs, inum: nat, k: nat): nat {
    if k / 1024 < MAXFILE && inum in fs.inodes && Ptr(fs, SlotOf(inum, k / 1024)) != 0
    then ByteOf(BlockAt(fs, Ptr(fs, SlotOf(inum, k / 1024))), k % 1024) else 0
  }

  function ByteOf(block: seq<nat>, i: nat): nat {
    if i < |block| then block[i] else 0
  }

  /** Every block below the size of a file is there. */
  ghost predicate Mapped(fs: Fs, inum: nat)
    requires inum in fs.inodes
  {
    && fs.inodes[inum].size <= MAXFILE * 1024
    && (forall bn: nat :: bn * 1024 < fs.inodes[inum].size ==> Ptr(fs, SlotOf(inum, bn)) != 0)
  }

  ghost predicate FsOk(fs: Fs, owner: Owners) {
    Ownership(fs, owner) && forall n :: n in fs.inodes ==> Mapped(fs, n)
  }

  /** The contents of a file. */
  ghost function Content(fs: Fs, inum: nat): (r: seq<nat>)
    requires inum in fs.inodes
    ensures |r| == fs.inodes[inum].size
  {
    seq<nat>(fs.inodes[inum].size, k requires 0 <= k => ByteIn(fs, inum, k))
  }

  // ----- Giving a free block to an empty slot -----

  /** balloc followed by the store of the block number in a slot. */
  function Attach(fs: Fs, s: Slot, b: nat): Fs
    requires Shape(fs) && IsSlot(fs, s) && b < |fs.used|
    requires s.Entry? ==> Addr(fs, s.inum, 12) < |fs.used|
  {
    var fs1 := fs.(used := fs.used[b := true], blocks := fs.blocks[b := Zeros(1024)]);
    match s
    case Direct(inum, i) =>
      var addrs: seq<nat> := fs.inodes[inum].addrs[i := b];
      fs1.(inodes := fs.inodes[inum := fs.inodes[inum].(addrs := addrs)])
    case Entry(inum, j) =>
      var a := Addr(fs, inum, 12);
      var block: seq<nat> := WithWord(fs1.blocks[a], j, b);
      fs1.(blocks := fs1.blocks[a := block])
  }

  /** The other slots keep their pointers. */
  lemma AttachPtr(fs: Fs, owner: Owners, s: Slot, b: nat, t: Slot)
    requires Ownership(fs, owner) && IsSlot(fs, s) && IsSlot(fs, t) && b < |fs.used| && !fs.used[b] && Ptr(fs, s) == 0
    requires s.Entry? ==> Addr(fs, s.inum, 12) != 0 && Addr(fs, s.inum, 12) < |fs.used|
    ensures Ptr(Attach(fs, s, b), t) == if t == s then b else Ptr(fs, t)
  {
    var fs' := Attach(fs, s, b);
    match s {
      case Direct(inum, i) =>
        match t {
          case Direct(_, _) =>
          case Entry(n, j) =>
            if n == inum && i == 12 {
              ZeroWord(j);
            } else if Addr(fs, n, 12) != 0 {
              PtrInside(fs, owner, Direct(n, 12));
            }
        }
      case Entry(inum, j) =>
        var a := Addr(fs, inum, 12);
        PtrInside(fs, owner, Direct(inum, 12));
        match t {
          case Direct(_, _) =>
          case Entry(n, k) =>
            if n == inum {
              WordRoundTrip(fs.blocks[a], j, b, k);
            } else if Addr(fs, n, 12) != 0 {
              PtrInside(fs, owner, Direct(n, 12));
              SlotsApart(fs, owner, Direct(n, 12), Direct(inum, 12));
            }
        }
    }
  }

  lemma AttachKeeps(fs: Fs, owner: Owners, s: Slot, b: nat)
    requires Ownership(fs, owner) && IsSlot(fs, s) && b < |fs.used| && !fs.used[b] && Ptr(fs, s) == 0
    requires s.Entry? ==> Addr(fs, s.inum, 12) != 0 && Addr(fs, s.inum, 12) < |fs.used|
    ensures b !in owner && Ownership(Attach(fs, s, b), owner[b := s])
  {
    var fs', owner' := Attach(fs, s, b), owner[b := s];
    assert b !in owner;
    AttachShape(fs, s, b);
    forall t
      ensures SlotOk(fs', owner', t)
    {
      if IsSlot(fs, t) {
        AttachPtr(fs, owner, s, b, t);
        assert SlotOk(fs, owner, t);
      }
    }
    forall c | c in owner'
      ensures OwnerOk(fs', owner', c)
    {
      if c == b {
        AttachPtr(fs, owner, s, b, s);
      } else {
        assert OwnerOk(fs, owner, c);
        AttachPtr(fs, owner, s, b, owner[c]);
      }
    }
  }

  lemma AttachShape(fs: Fs, s: Slot, b: nat)
    requires Shape(fs) && IsSlot(fs, s) && b < |fs.used|
    requires s.Entry? ==> Addr(fs, s.inum, 12) < |fs.used|
    ensures Shape(Attach(fs, s, b)) && Attach(fs, s, b).inodes.Keys == fs.inodes.Keys
  {
  }

  ghost predicate SameView(fs: Fs, fs': Fs) {
    forall n: nat, k: nat :: ByteIn(fs', n, k) == ByteIn(fs, n, k)
  }

  /** A fresh block reads as the zeros it replaces. */
  lemma AttachByte(fs: Fs, owner: Owners, s: Slot, b: nat, n: nat, k: nat)
    requires Ownership(fs, owner) && IsSlot(fs, s) && b < |fs.used| && !fs.used[b] && Ptr(fs, s) == 0
    requires s.Entry? ==> Addr(fs, s.inum, 12) != 0 && Addr(fs, s.inum, 12) < |fs.used|
    ensures ByteIn(Attach(fs, s, b), n, k) == ByteIn(fs, n, k)
  {
    var fs', t := Attach(fs, s, b), SlotOf(n, k / 1024);
    if n in fs.inodes && k / 1024 < MAXFILE {
      AttachPtr(fs, owner, s, b, t);
      if s.Entry? {
        PtrInside(fs, owner, Direct(s.inum, 12));
      }
      if t != s && Ptr(fs, t) != 0 {
        PtrInside(fs, owner, t);
        if s.Entry? {
          SlotsApart(fs, owner, t, Direct(s.inum, 12));
        }
      }
    }
  }

  lemma AttachView(fs: Fs, owner: Owners, s: Slot, b: nat)
    requires Ownership(fs, owner) && IsSlot(fs, s) && b < |fs.used| && !fs.used[b] && Ptr(fs, s) == 0
    requires s.Entry? ==> Addr(fs, s.inum, 12) != 0 && Addr(fs, s.inum, 12) < |fs.used|
    ensures SameView(fs, Attach(fs, s, b))
  {
    forall n: nat, k: nat
      ensures ByteIn(Attach(fs, s, b), n, k) == ByteIn(fs, n, k)
    {
      AttachByte(fs, owner, s, b, n, k);
    }
  }

  /** Sizes are kept and no block of a file is lost. */
  ghost predicate Grows(fs: Fs, fs': Fs) {
    && fs'.inodes.Keys == fs.inodes.Keys && fs'.start == fs.start && |fs'.used| == |fs.used|
    && (forall n :: n in fs.inodes ==> fs'.inodes[n].size == fs.inodes[n].size)
    && (forall s :: IsSlot(fs, s) && Ptr(fs, s) != 0 ==> Ptr(fs', s) == Ptr(fs, s))
  }

  /** No block of a file is lost. */
  ghost predicate Keeps(fs: Fs, fs': Fs) {
    && fs'.inodes.Keys == fs.inodes.Keys && fs'.start == fs.start && |fs'.used| == |fs.used|
    && (forall s :: IsSlot(fs, s) && Ptr(fs, s) != 0 ==> Ptr(fs', s) == Ptr(fs, s))
  }

  /** Of the inodes only `inum` may have changed. */
  ghost predicate OnlyInode(fs: Fs, fs': Fs, inum: nat) {
    && fs'.inodes.Keys == fs.inodes.Keys
    && forall n :: n in fs.inodes && n != inum ==> fs'.inodes[n] == fs.inodes[n]
  }

  lemma OnlyTwice(fs: Fs, fs1: Fs, fs2: Fs, inum: nat)
    requires OnlyInode(fs, fs1, inum) && OnlyInode(fs1, fs2, inum)
    ensures OnlyInode(fs, fs2, inum)
  {
  }

  lemma SameOthers(fs: Fs, fs': Fs, inum: nat)
    requires OnlyInode(fs, fs', inum) && inum in fs.inodes
    ensures fs'.inodes == fs.inodes[inum := fs'.inodes[inum]]
  {
  }

  lemma OnlySelf(fs: Fs, inum: nat)
    ensures OnlyInode(fs, fs, inum)
  {
  }

  lemma AttachGrows(fs: Fs, owner: Owners, s: Slot, b: nat)
    requires Ownership(fs, owner) && IsSlot(fs, s) && b < |fs.used| && !fs.used[b] && Ptr(fs, s) == 0
    requires s.Entry? ==> Addr(fs, s.inum, 12) != 0 && Addr(fs, s.inum, 12) < |fs.used|
    ensures Grows(fs, Attach(fs, s, b))
  {
    AttachShape(fs, s, b);
    forall t | IsSlot(fs, t) && Ptr(fs, t) != 0
      ensures Ptr(Attach(fs, s, b), t) == Ptr(fs, t)
    {
      AttachPtr(fs, owner, s, b, t);
    }
  }

  lemma GrowsBoth(fs: Fs, fs1: Fs, fs2: Fs)
    requires Grows(fs, fs1) && Grows(fs1, fs2)
    ensures Grows(fs, fs2)
  {
    forall s | IsSlot(fs, s) && Ptr(fs, s) != 0
      ensures Ptr(fs2, s) == Ptr(fs, s)
    {
      assert IsSlot(fs1, s) && Ptr(fs1, s) == Ptr(fs, s);
    }
  }

  // ----- Writing part of a block -----

  function PatchBlock(fs: Fs, b: nat, off: nat, bytes: seq<nat>): Fs
    requires b in fs.blocks && off + |bytes| <= |fs.blocks[b]|
  {
    fs.(blocks := fs.blocks[b := Patched(fs.blocks[b], off, bytes)])
  }

  /** Writing a data block moves no pointer. */
  lemma PatchPtr(fs: Fs, owner: Owners, inum: nat, bn: nat, off: nat, bytes: seq<nat>, t: Slot)
    requires Ownership(fs, owner) && inum in fs.inodes && bn < MAXFILE && off + |bytes| <= 1024
    requires Ptr(fs, SlotOf(inum, bn)) in fs.blocks && |fs.blocks[Ptr(fs, SlotOf(inum, bn))]| == 1024
    requires Ptr(fs, SlotOf(inum, bn)) != 0 && IsSlot(fs, t)
    ensures Ptr(PatchBlock(fs, Ptr(fs, SlotOf(inum, bn)), off, bytes), t) == Ptr(fs, t)
  {
    if t.Entry? && Addr(fs, t.inum, 12) != 0 {
      SlotsApart(fs, owner, SlotOf(inum, bn), Direct(t.inum, 12));
    }
  }

  lemma PatchKeeps(fs: Fs, owner: Owners, inum: nat, bn: nat, off: nat, bytes: seq<nat>)
    requires Ownership(fs, owner) && inum in fs.inodes && bn < MAXFILE && off + |bytes| <= 1024
    requires Ptr(fs, SlotOf(inum, bn)) in fs.blocks && |fs.blocks[Ptr(fs, SlotOf(inum, bn))]| == 1024
    requires Ptr(fs, SlotOf(inum, bn)) != 0
    ensures var fs' := PatchBlock(fs, Ptr(fs, SlotOf(inum, bn)), off, bytes);
      Ownership(fs', owner) && Grows(fs, fs')
  {
    var fs' := PatchBlock(fs, Ptr(fs, SlotOf(inum, bn)), off, bytes);
    forall t | IsSlot(fs, t)
      ensures Ptr(fs', t) == Ptr(fs, t)
    {
      PatchPtr(fs, owner, inum, bn, off, bytes, t);
    }
    forall t
      ensures SlotOk(fs', owner, t)
    {
      assert SlotOk(fs, owner, t);
    }
    forall b | b in owner
      ensures OwnerOk(fs', owner, b)
    {
      assert OwnerOk(fs, owner, b);
    }
  }

  /** `bytes` replace what the file held from position d on; nothing else changes in any file. */
  ghost predicate Wrote(fs: Fs, fs': Fs, inum: nat, d: nat, bytes: seq<nat>) {
    forall n: nat, k: nat :: ByteIn(fs', n, k)
      == if n == inum && d <= k < d + |bytes| then bytes[k - d] else ByteIn(fs, n, k)
  }

  lemma PatchByte(fs: Fs, owner: Owners, inum: nat, bn: nat, off: nat, bytes: seq<nat>, n: nat, k: nat)
    requires Ownership(fs, owner) && inum in fs.inodes && bn < MAXFILE && off + |bytes| <= 1024
    requires Ptr(fs, SlotOf(inum, bn)) in fs.blocks && |fs.blocks[Ptr(fs, SlotOf(inum, bn))]| == 1024
    requires Ptr(fs, SlotOf(inum, bn)) != 0
    ensures ByteIn(PatchBlock(fs, Ptr(fs, SlotOf(inum, bn)), off, bytes), n, k)
         == if n == inum && bn * 1024 + off <= k < bn * 1024 + off + |bytes| then bytes[k - (bn * 1024 + off)]
            else ByteIn(fs, n, k)
  {
    var c, i := k / 1024, k % 1024;
    assert k == c * 1024 + i;
    if n in fs.inodes && c < MAXFILE {
      PatchPtr(fs, owner, inum, bn, off, bytes, SlotOf(n, c));
      if (n != inum || c != bn) && Ptr(fs, SlotOf(n, c)) != 0 {
        SlotsApart(fs, owner, SlotOf(inum, bn), SlotOf(n, c));
      }
    }
  }

  lemma PatchWrote(fs: Fs, owner: Owners, inum: nat, bn: nat, off: nat, bytes: seq<nat>)
    requires Ownership(fs, owner) && inum in fs.inodes && bn < MAXFILE && off + |bytes| <= 1024
    requires Ptr(fs, SlotOf(inum, bn)) in fs.blocks && |fs.blocks[Ptr(fs, SlotOf(inum, bn))]| == 1024
    requires Ptr(fs, SlotOf(inum, bn)) != 0
    ensures Wrote(fs, PatchBlock(fs, Ptr(fs, SlotOf(inum, bn)), off, bytes), inum, bn * 1024 + off, bytes)
  {
    hide Ownership;
    forall n: nat, k: nat
      ensures ByteIn(PatchBlock(fs, Ptr(fs, SlotOf(inum, bn)), off, bytes), n, k)
           == if n == inum && bn * 1024 + off <= k < bn * 1024 + off + |bytes| then bytes[k - (bn * 1024 + off)]
              else ByteIn(fs, n, k)
    {
      PatchByte(fs, owner, inum, bn, off, bytes, n, k);
    }
  }

  /** No file reads differently: nothing was written. */
  lemma WroteNone(fs: Fs, fs': Fs, inum: nat, d: nat)
    requires SameView(fs, fs')
    ensures Wrote(fs, fs', inum, d, [])
  {
  }

  lemma WroteBoth(fs: Fs, fs1: Fs, fs2: Fs, inum: nat, d: nat, b1: seq<nat>, b2: seq<nat>)
    requires Wrote(fs, fs1, inum, d, b1) && Wrote(fs1, fs2, inum, d + |b1|, b2)
    ensures Wrote(fs, fs2, inum, d, b1 + b2)
  {
  }

  lemma ViewThenWrote(fs: Fs, fs1: Fs, fs2: Fs, inum: nat, d: nat, bytes: seq<nat>)
    requires SameView(fs, fs1) && Wrote(fs1, fs2, inum, d, bytes)
    ensures Wrote(fs, fs2, inum, d, bytes)
  {
  }

  // ----- What a write does to the contents -----

  function Spliced(content: seq<nat>, off: nat, src: seq<nat>): seq<nat>
    requires off <= |content|
  {
    content[..off] + src + (if off + |src| < |content| then content[off + |src|..] else [])
  }

  /** With the size set to the end of the write if that lies further, the write replaces or
      extends exactly its range, and every other file is as it was. */
  lemma WriteContent(fs: Fs, fs': Fs, inum: nat, off: nat, src: seq<nat>, n: nat)
    requires inum in fs.inodes && n in fs.inodes && fs'.inodes.Keys == fs.inodes.Keys && off <= fs.inodes[inum].size
    requires Wrote(fs, fs', inum, off, src)
    requires fs'.inodes[n].size == (
      if n == inum && off + |src| > fs.inodes[n].size then off + |src| else fs.inodes[n].size)
    ensures Content(fs', n) == if n == inum then Spliced(Content(fs, n), off, src) else Content(fs, n)
  {
    var was, now := Content(fs, n), Content(fs', n);
    var want := if n == inum then Spliced(was, off, src) else was;
    assert |now| == |want|;
    forall k | 0 <= k < |now|
      ensures now[k] == want[k]
    {
      assert now[k] == ByteIn(fs', n, k);
    }
  }

  lemma OwnershipShape(fs: Fs, owner: Owners)
    requires Ownership(fs, owner)
    ensures Shape(fs)
  {
  }

  lemma FreeIsData(fs: Fs, owner: Owners, b: nat)
    requires Ownership(fs, owner) && b < |fs.used| && !fs.used[b]
    ensures 0 < fs.start <= b && b !in owner
  {
  }

  /** No block is free. */
  ghost predicate Full(used: seq<bool>) {
    forall b :: 0 <= b < |used| ==> used[b]
  }

  ghost function FreeBlocks(used: seq<bool>): set<nat> {
    set b | 0 <= b < |used| && !used[b]
  }

  ghost function Frees(used: seq<bool>): nat {
    |FreeBlocks(used)|
  }

  lemma FreesTaken(used: seq<bool>, b: nat)
    requires b < |used| && !used[b]
    ensures Frees(used) == Frees(used[b := true]) + 1
  {
    assert FreeBlocks(used) == FreeBlocks(used[b := true]) + {b};
  }

  lemma FullHasNone(used: seq<bool>)
    ensures Full(used) ==> Frees(used) == 0
  {
    assert Full(used) ==> FreeBlocks(used) == {};
  }

  // ----- What is logged -----

  /** Every block that differs, and the map block of every bit that differs, is logged. */
  ghost predicate Recorded(fs: Fs, fs': Fs, bmapstart: nat, logged: set<nat>) {
    && |fs'.used| == |fs.used| && fs'.blocks.Keys == fs.blocks.Keys
    && (forall b :: b in fs.blocks && fs'.blocks[b] != fs.blocks[b] ==> b in logged)
    && (forall b :: 0 <= b < |fs.used| && fs'.used[b] != fs.used[b] ==> b / 8192 + bmapstart in logged)
  }

  lemma RecordedBoth(fs: Fs, fs1: Fs, fs2: Fs, bmapstart: nat, l1: set<nat>, l2: set<nat>)
    requires Recorded(fs, fs1, bmapstart, l1) && Recorded(fs1, fs2, bmapstart, l2) && l1 <= l2
    ensures Recorded(fs, fs2, bmapstart, l2)
  {
  }

  lemma AttachRecorded(fs: Fs, s: Slot, b: nat, bmapstart: nat, logged: set<nat>)
    requires Shape(fs) && IsSlot(fs, s) && b < |fs.used| && (s.Entry? ==> Addr(fs, s.inum, 12) < |fs.used|)
    requires b in logged && b / 8192 + bmapstart in logged && (s.Entry? ==> Addr(fs, s.inum, 12) in logged)
    ensures Recorded(fs, Attach(fs, s, b), bmapstart, logged)
  {
  }

  lemma AttachOnly(fs: Fs, s: Slot, b: nat)
    requires Shape(fs) && IsSlot(fs, s) && b < |fs.used| && (s.Entry? ==> Addr(fs, s.inum, 12) < |fs.used|)
    ensures OnlyInode(fs, Attach(fs, s, b), s.inum)
  {
  }

  lemma AttachUsed(fs: Fs, s: Slot, b: nat)
    requires Shape(fs) && IsSlot(fs, s) && b < |fs.used| && (s.Entry? ==> Addr(fs, s.inum, 12) < |fs.used|)
    ensures Attach(fs, s, b).used == fs.used[b := true]
  {
  }

  lemma AttachPtrs(fs: Fs, owner: Owners, s: Slot, b: nat)
    requires Ownership(fs, owner) && IsSlot(fs, s) && b < |fs.used| && !fs.used[b] && Ptr(fs, s) == 0
    requires s.Entry? ==> Addr(fs, s.inum, 12) != 0 && Addr(fs, s.inum, 12) < |fs.used|
    ensures forall t :: IsSlot(fs, t) ==> Ptr(Attach(fs, s, b), t) == if t == s then b else Ptr(fs, t)
  {
    forall t | IsSlot(fs, t)
      ensures Ptr(Attach(fs, s, b), t) == if t == s then b else Ptr(fs, t)
    {
      AttachPtr(fs, owner, s, b, t);
    }
  }

  lemma RecordedNone(fs: Fs, bmapstart: nat, logged: set<nat>)
    ensures Recorded(fs, fs, bmapstart, logged)
  {
  }

  lemma GrowsSelf(fs: Fs)
    ensures Grows(fs, fs) && SameView(fs, fs)
  {
  }

  lemma ViewTwice(fs: Fs, fs1: Fs, fs2: Fs)
    requires SameView(fs, fs1) && SameView(fs1, fs2)
    ensures SameView(fs, fs2)
  {
  }

  /** How many blocks bmap has to allocate. */
  function NewBlocks(fs: Fs, inum: nat, bn: nat): nat {
    (if Ptr(fs, SlotOf(inum, bn)) == 0 then 1 else 0) + NewIndirect(fs, inum, bn)
  }

  function NewIndirect(fs: Fs, inum: nat, bn: nat): nat {
    if bn >= 12 && Addr(fs, inum, 12) == 0 then 1 else 0
  }

  lemma SlotKept(fs: Fs, fs': Fs, s: Slot)
    requires Grows(fs, fs') && IsSlot(fs, s)
    ensures IsSlot(fs', s) && (Ptr(fs, s) != 0 ==> Ptr(fs', s) == Ptr(fs, s))
  {
  }

  function NewData(fs: Fs, inum: nat, bn: nat): nat {
    if Ptr(fs, SlotOf(inum, bn)) == 0 then 1 else 0
  }

  function IndirectOf(fs: Fs, inum: nat): set<nat> {
    if Addr(fs, inum, 12) == 0 then {} else {Addr(fs, inum, 12)}
  }

  function IndirectMade(fs: Fs, fs': Fs, inum: nat): nat {
    if Addr(fs, inum, 12) == 0 && Addr(fs', inum, 12) != 0 then 1 else 0
  }

  /** The account of the blocks that a write logs: data blocks, map blocks for the blocks it
      allocates, and the indirect block. */
  ghost predicate Account(l0: set<nat>, l: set<nat>, data: set<nat>, bits: set<nat>, chunks: nat, allocs: nat,
                          fs: Fs, fs': Fs, inum: nat) {
    && l0 <= l <= l0 + data + bits + IndirectOf(fs', inum)
    && |data| <= chunks && |bits| <= allocs + IndirectMade(fs, fs', inum)
  }

  lemma AccountMore(l0: set<nat>, l1: set<nat>, l2: set<nat>, data: set<nat>, bits: set<nat>, chunks: nat, allocs: nat,
                    d: nat, more: set<nat>, made: nat, fs: Fs, fs1: Fs, fs2: Fs, inum: nat)
    requires Account(l0, l1, data, bits, chunks, allocs, fs, fs1, inum)
    requires l1 <= l2 <= l1 + {d} + more + IndirectOf(fs2, inum) && |more| <= made + IndirectMade(fs1, fs2, inum)
    requires Grows(fs, fs1) && Grows(fs1, fs2) && inum in fs.inodes && |fs.inodes[inum].addrs| == 13
    ensures Account(l0, l2, data + {d}, bits + more, chunks + 1, allocs + made, fs, fs2, inum)
  {
    IndirectStays(fs, fs1, inum);
    IndirectStays(fs1, fs2, inum);
  }

  lemma IndirectStays(fs: Fs, fs': Fs, inum: nat)
    requires Grows(fs, fs') && inum in fs.inodes
    ensures Addr(fs, inum, 12) != 0 ==> Addr(fs', inum, 12) == Addr(fs, inum, 12)
  {
    assert IsSlot(fs, Direct(inum, 12)) && Ptr(fs, Direct(inum, 12)) == Addr(fs, inum, 12);
    assert Ptr(fs', Direct(inum, 12)) == Addr(fs', inum, 12);
  }

  /** The number of blocks that a write touches. */
  function Touched(off: nat, n: nat): nat {
    if n == 0 then 0 else (off + n + 1023) / 1024 - off / 1024
  }

  lemma SameInodes(fs: Fs, fs': Fs)
    requires Grows(fs, fs')
    ensures fs'.inodes.Keys == fs.inodes.Keys && fs'.start == fs.start && |fs'.used| == |fs.used|
  {
  }

  lemma PatchRecorded(fs: Fs, b: nat, off: nat, bytes: seq<nat>, bmapstart: nat, logged: set<nat>)
    requires b in fs.blocks && off + |bytes| <= |fs.blocks[b]| && b in logged
    ensures Recorded(fs, PatchBlock(fs, b, off, bytes), bmapstart, logged)
  {
  }

  /** One chunk touches one more block, and all but the last end on a block boundary. */
  lemma TouchedStep(off: nat, tot: nat, m: nat)
    requires 0 < m <= 1024 - (off + tot) % 1024 && (tot > 0 ==> (off + tot) % 1024 == 0)
    ensures Touched(off, tot + m) == Touched(off, tot) + 1
    ensures m == 1024 - (off + tot) % 1024 ==> (off + tot + m) % 1024 == 0
  {
    var q := (off + tot) / 1024;
    assert off + tot == q * 1024 + (off + tot) % 1024;
    assert (off + tot + m + 1023) / 1024 == q + 1;
  }

  /** Blocks that a write allocates: not its first if it starts inside a block. */
  function Allocated(off: nat, n: nat): nat {
    if off % 1024 != 0 && Touched(off, n) > 0 then Touched(off, n) - 1 else Touched(off, n)
  }

  ghost predicate MappedTo(fs: Fs, inum: nat, from: nat, to: nat) {
    forall bn: nat :: from / 1024 <= bn && bn * 1024 < to ==> Ptr(fs, SlotOf(inum, bn)) != 0
  }

  lemma MappedMore(fs: Fs, fs': Fs, inum: nat, from: nat, pos: nat, m: nat)
    requires Grows(fs, fs') && inum in fs.inodes && MappedTo(fs, inum, from, pos)
    requires from <= pos && pos + m <= MAXFILE * 1024
    requires Ptr(fs', SlotOf(inum, pos / 1024)) != 0 && m <= 1024 - pos % 1024
    ensures MappedTo(fs', inum, from, pos + m)
  {
    forall bn: nat | from / 1024 <= bn && bn * 1024 < pos + m
      ensures Ptr(fs', SlotOf(inum, bn)) != 0
    {
      if bn * 1024 < pos {
        assert IsSlot(fs, SlotOf(inum, bn)) && Ptr(fs, SlotOf(inum, bn)) != 0;
      } else {
        assert pos / 1024 * 1024 + 1024 >= pos + m;
      }
    }
  }

  lemma MappedLess(fs: Fs, inum: nat, from: nat, to: nat, more: nat)
    requires MappedTo(fs, inum, from, more) && to <= more
    ensures MappedTo(fs, inum, from, to)
  {
  }

  lemma MappedNone(fs: Fs, inum: nat, off: nat)
    requires inum in fs.inodes && Mapped(fs, inum) && off <= fs.inodes[inum].size
    ensures MappedTo(fs, inum, off, off)
    ensures off % 1024 != 0 ==> NewData(fs, inum, off / 1024) == 0
  {
  }

  /** A file stays mapped when its size is moved up to what has been written. */
  lemma MappedAfter(fs: Fs, fs': Fs, inum: nat, off: nat, end: nat)
    requires Grows(fs, fs') && inum in fs.inodes && Mapped(fs, inum) && MappedTo(fs', inum, off, end)
    requires off <= fs.inodes[inum].size && off <= end <= MAXFILE * 1024
    ensures forall bn: nat :: bn * 1024 < end || bn * 1024 < fs.inodes[inum].size ==> Ptr(fs', SlotOf(inum, bn)) != 0
  {
    forall bn: nat | bn * 1024 < end || bn * 1024 < fs.inodes[inum].size
      ensures Ptr(fs', SlotOf(inum, bn)) != 0
    {
      if bn * 1024 < fs.inodes[inum].size {
        assert IsSlot(fs, SlotOf(inum, bn)) && Ptr(fs, SlotOf(inum, bn)) != 0;
      } else {
        assert off / 1024 <= bn;
      }
    }
  }

  lemma AccountNone(l: set<nat>, fs: Fs, inum: nat)
    ensures Account(l, l, {}, {}, 0, 0, fs, fs, inum)
  {
  }

  lemma AccountLoosens(l0: set<nat>, l: set<nat>, data: set<nat>, bits: set<nat>, chunks: nat, allocs: nat,
                       chunks': nat, allocs': nat, fs: Fs, fs': Fs, inum: nat)
    requires Account(l0, l, data, bits, chunks, allocs, fs, fs', inum) && chunks <= chunks' && allocs <= allocs'
    ensures Account(l0, l, data, bits, chunks', allocs', fs, fs', inum)
  {
  }

  /** writei after the bytes `done`, having had blocks for n bytes. */
  ghost predicate Progress(fs: Fs, fs': Fs, owner: Owners, l0: set<nat>, l: set<nat>, data: set<nat>, bits: set<nat>,
                           bmapstart: nat, inum: nat, off: nat, done: seq<nat>, n: nat) {
    && Ownership(fs', owner) && Grows(fs, fs') && Wrote(fs, fs', inum, off, done) && Recorded(fs, fs', bmapstart, l)
    && MappedTo(fs', inum, off, off + |done|)
    && Account(l0, l, data, bits, Touched(off, n), Allocated(off, n), fs, fs', inum)
  }

  lemma ProgressNone(fs: Fs, owner: Owners, l: set<nat>, bmapstart: nat, inum: nat, off: nat)
    requires Ownership(fs, owner) && inum in fs.inodes && Mapped(fs, inum) && off <= fs.inodes[inum].size
    ensures Progress(fs, fs, owner, l, l, {}, {}, bmapstart, inum, off, [], 0)
  {
    hide Ownership, Mapped, Wrote, Grows, Recorded;
    GrowsSelf(fs);
    RecordedNone(fs, bmapstart, l);
    WroteNone(fs, fs, inum, off);
    MappedNone(fs, inum, off);
    AccountNone(l, fs, inum);
  }

  lemma ProgressMore(fs: Fs, fs1: Fs, fs2: Fs, owner: Owners, owner': Owners, l0: set<nat>, l1: set<nat>, l2: set<nat>,
                     data: set<nat>, bits: set<nat>, d: nat, more: set<nat>,
                     bmapstart: nat, inum: nat, off: nat, done: seq<nat>, part: seq<nat>, stored: seq<nat>)
    requires Progress(fs, fs1, owner, l0, l1, data, bits, bmapstart, inum, off, done, |done|)
    requires stored == part || stored == []
    requires inum in fs.inodes && |fs.inodes[inum].addrs| == 13 && Mapped(fs, inum) && off <= fs.inodes[inum].size
    requires 0 < |part| <= 1024 - (off + |done|) % 1024 && (|done| > 0 ==> (off + |done|) % 1024 == 0)
    requires off + |done| + |part| <= MAXFILE * 1024
    requires Ownership(fs2, owner') && Grows(fs1, fs2) && Wrote(fs1, fs2, inum, off + |done|, stored)
    requires Recorded(fs1, fs2, bmapstart, l2) && Ptr(fs2, SlotOf(inum, (off + |done|) / 1024)) != 0
    requires l1 <= l2 <= l1 + {d} + more + IndirectOf(fs2, inum)
    requires |more| <= NewData(fs1, inum, (off + |done|) / 1024) + IndirectMade(fs1, fs2, inum)
    ensures Progress(fs, fs2, owner', l0, l2, data + {d}, bits + more, bmapstart, inum, off, done + stored,
                     |done| + |part|)
  {
    hide Ownership, Grows, Recorded, Wrote, Account, MappedTo, Mapped, IndirectOf, IndirectMade;
    var pos, n := off + |done|, |done|;
    TouchedStep(off, n, |part|);
    SameInodes(fs, fs1);
    GrowsBoth(fs, fs1, fs2);
    WroteBoth(fs, fs1, fs2, inum, off, done, stored);
    RecordedBoth(fs, fs1, fs2, bmapstart, l1, l2);
    MappedMore(fs1, fs2, inum, off, pos, |part|);
    MappedLess(fs2, inum, off, pos + |stored|, pos + |part|);
    FirstMapped(fs, inum, off);
    if n == 0 {
      SameFirst(fs, fs1, inum, off / 1024);
    }
    var made := NewData(fs1, inum, pos / 1024);
    AccountMore(l0, l1, l2, data, bits, Touched(off, n), Allocated(off, n), d, more, made, fs, fs1, fs2, inum);
    AccountLoosens(l0, l2, data + {d}, bits + more, Touched(off, n) + 1, Allocated(off, n) + made,
                   Touched(off, n + |part|), Allocated(off, n + |part|), fs, fs2, inum);
  }

  /** What a write has taken off the free blocks, after n bytes. */
  ghost predicate Spent(fs: Fs, fs': Fs, inum: nat, off: nat, n: nat) {
    Frees(fs.used) <= Frees(fs'.used) + Allocated(off, n) + IndirectMade(fs, fs', inum)
  }

  /** One piece further. */
  lemma AllocStep(fs: Fs, fs1: Fs, inum: nat, off: nat, n: nat, m: nat)
    requires Grows(fs, fs1) && inum in fs.inodes && |fs.inodes[inum].addrs| == 13 && Mapped(fs, inum)
    requires off <= fs.inodes[inum].size && off + n + m <= MAXFILE * 1024
    requires 0 < m <= 1024 - (off + n) % 1024 && (n > 0 ==> (off + n) % 1024 == 0)
    ensures Allocated(off, n) + NewData(fs1, inum, (off + n) / 1024) <= Allocated(off, n + m)
  {
    hide Grows, Mapped;
    TouchedStep(off, n, m);
    FirstMapped(fs, inum, off);
    if n == 0 {
      SameFirst(fs, fs1, inum, off / 1024);
    }
  }

  lemma SpentMore(fs: Fs, fs1: Fs, fs2: Fs, inum: nat, off: nat, n: nat, m: nat)
    requires Spent(fs, fs1, inum, off, n) && Grows(fs, fs1) && Grows(fs1, fs2) && inum in fs.inodes
    requires Frees(fs1.used) == Frees(fs2.used) + NewData(fs1, inum, (off + n) / 1024) + IndirectMade(fs1, fs2, inum)
    requires Allocated(off, n) + NewData(fs1, inum, (off + n) / 1024) <= Allocated(off, n + m)
    ensures Spent(fs, fs2, inum, off, n + m)
  {
    hide Frees, NewData, Allocated;
    IndirectStays(fs, fs1, inum);
    IndirectStays(fs1, fs2, inum);
  }

  /** A write that finds no free block needed more than there were. */
  lemma SpentAll(fs: Fs, fs1: Fs, inum: nat, off: nat, n: nat, m: nat, all: nat)
    requires Spent(fs, fs1, inum, off, n) && Frees(fs1.used) < NewBlocks(fs1, inum, (off + n) / 1024)
    requires Allocated(off, n) + NewData(fs1, inum, (off + n) / 1024) <= Allocated(off, n + m) && n + m <= all
    ensures Frees(fs.used) <= Allocated(off, all)
  {
    hide Frees;
    assert (off + (n + m) + 1023) / 1024 <= (off + all + 1023) / 1024;
  }

  lemma FirstMapped(fs: Fs, inum: nat, off: nat)
    requires inum in fs.inodes && Mapped(fs, inum) && off <= fs.inodes[inum].size
    ensures off % 1024 != 0 ==> off / 1024 < MAXFILE && NewData(fs, inum, off / 1024) == 0
  {
  }

  lemma SameFirst(fs: Fs, fs': Fs, inum: nat, bn: nat)
    requires Grows(fs, fs') && inum in fs.inodes
    ensures bn < MAXFILE && NewData(fs, inum, bn) == 0 ==> NewData(fs', inum, bn) == 0
  {
    if bn < MAXFILE {
      SlotKept(fs, fs', SlotOf(inum, bn));
    }
  }

  lemma ProgressInode(fs: Fs, fs': Fs, owner: Owners, l0: set<nat>, l: set<nat>, data: set<nat>, bits: set<nat>,
                      bmapstart: nat, inum: nat, off: nat, done: seq<nat>, n: nat)
    requires Progress(fs, fs', owner, l0, l, data, bits, bmapstart, inum, off, done, n)
    ensures fs'.inodes.Keys == fs.inodes.Keys && Ownership(fs', owner)
  {
  }

  lemma ProgressGrows(fs: Fs, fs': Fs, owner: Owners, l0: set<nat>, l: set<nat>, data: set<nat>, bits: set<nat>,
                      bmapstart: nat, inum: nat, off: nat, done: seq<nat>, n: nat)
    requires Progress(fs, fs', owner, l0, l, data, bits, bmapstart, inum, off, done, n)
    ensures Grows(fs, fs')
  {
  }

  lemma SpentNone(fs: Fs, inum: nat, off: nat)
    ensures Spent(fs, fs, inum, off, 0)
  {
  }

  // ----- The end of writei -----

  function Resized(fs: Fs, inum: nat, end: nat): Fs
    requires inum in fs.inodes
  {
    if end > fs.inodes[inum].size then fs.(inodes := fs.inodes[inum := fs.inodes[inum].(size := end)]) else fs
  }

  lemma ResizedPtr(fs: Fs, inum: nat, end: nat, s: Slot)
    requires inum in fs.inodes
    ensures Ptr(Resized(fs, inum, end), s) == Ptr(fs, s) && IsSlot(Resized(fs, inum, end), s) == IsSlot(fs, s)
  {
  }

  lemma ResizedKeepsSlots(fs: Fs, fs': Fs, inum: nat, end: nat)
    requires Grows(fs, fs') && inum in fs'.inodes
    ensures Keeps(fs, Resized(fs', inum, end))
  {
    forall s | IsSlot(fs, s) && Ptr(fs, s) != 0
      ensures Ptr(Resized(fs', inum, end), s) == Ptr(fs, s)
    {
      ResizedPtr(fs', inum, end, s);
    }
  }

  lemma ResizedKeeps(fs: Fs, owner: Owners, inum: nat, end: nat)
    requires Ownership(fs, owner) && inum in fs.inodes
    ensures Ownership(Resized(fs, inum, end), owner) && SameView(fs, Resized(fs, inum, end))
  {
    var fs' := Resized(fs, inum, end);
    forall s
      ensures SlotOk(fs', owner, s) && Ptr(fs', s) == Ptr(fs, s)
    {
      ResizedPtr(fs, inum, end, s);
      assert SlotOk(fs, owner, s);
    }
    forall b | b in owner
      ensures OwnerOk(fs', owner, b)
    {
      ResizedPtr(fs, inum, end, owner[b]);
      assert OwnerOk(fs, owner, b);
    }
  }

  /** What a finished writei leaves: a good file system in which only this file changed,
      and only in the range written. */
  lemma WriteDone(fs: Fs, fs': Fs, owner: Owners, owner': Owners, l0: set<nat>, l: set<nat>, data: set<nat>,
                  bits: set<nat>, bmapstart: nat, inum: nat, off: nat, src: seq<nat>, had: nat)
    requires FsOk(fs, owner) && inum in fs.inodes && off <= fs.inodes[inum].size && off + |src| <= MAXFILE * 1024
    requires Progress(fs, fs', owner', l0, l, data, bits, bmapstart, inum, off, src, had)
    ensures inum in fs'.inodes && FsOk(Resized(fs', inum, off + |src|), owner')
    ensures Recorded(fs, Resized(fs', inum, off + |src|), bmapstart, l)
    ensures Splices(fs, Resized(fs', inum, off + |src|), inum, off, src)
  {
    hide Ownership, Wrote, Account, SameView;
    var fs2 := Resized(fs', inum, off + |src|);
    ResizedKeeps(fs', owner', inum, off + |src|);
    WroteThenView(fs, fs', fs2, inum, off, src);
    MappedAfter(fs, fs', inum, off, off + |src|);
    forall n | n in fs2.inodes
      ensures Mapped(fs2, n)
    {
      assert Mapped(fs, n);
      forall bn: nat | bn * 1024 < fs2.inodes[n].size
        ensures Ptr(fs2, SlotOf(n, bn)) != 0
      {
        ResizedPtr(fs', inum, off + |src|, SlotOf(n, bn));
        if n != inum {
          assert IsSlot(fs, SlotOf(n, bn)) && Ptr(fs, SlotOf(n, bn)) != 0;
        }
      }
    }
    forall n | n in fs.inodes
      ensures Content(fs2, n) == if n == inum then Spliced(Content(fs, n), off, src) else Content(fs, n)
    {
      WriteContent(fs, fs2, inum, off, src, n);
    }
  }

  lemma ProgressKeeps(fs: Fs, fs': Fs, owner: Owners, l0: set<nat>, l: set<nat>, data: set<nat>, bits: set<nat>,
                      bmapstart: nat, inum: nat, off: nat, done: seq<nat>, n: nat, end: nat)
    requires Progress(fs, fs', owner, l0, l, data, bits, bmapstart, inum, off, done, n) && inum in fs'.inodes
    ensures Keeps(fs, Resized(fs', inum, end))
  {
    hide Ownership, Wrote, Account, Grows, Keeps, Recorded;
    ResizedKeepsSlots(fs, fs', inum, end);
  }

  lemma WroteThenView(fs: Fs, fs1: Fs, fs2: Fs, inum: nat, d: nat, bytes: seq<nat>)
    requires Wrote(fs, fs1, inum, d, bytes) && SameView(fs1, fs2)
    ensures Wrote(fs, fs2, inum, d, bytes)
  {
  }

  /** The contents of one file have `src` from `off` on; every other file is unchanged. */
  ghost predicate Splices(fs: Fs, fs': Fs, inum: nat, off: nat, src: seq<nat>)
    requires inum in fs.inodes && off <= fs.inodes[inum].size
  {
    && fs'.inodes.Keys == fs.inodes.Keys
    && forall n :: n in fs.inodes ==>
         Content(fs', n) == if n == inum then Spliced(Content(fs, n), off, src) else Content(fs, n)
  }

  lemma SplicedTwice(c: seq<nat>, off: nat, a: seq<nat>, b: seq<nat>)
    requires off <= |c|
    ensures off + |a| <= |Spliced(c, off, a)|
    ensures Spliced(Spliced(c, off, a), off + |a|, b) == Spliced(c, off, a + b)
  {
  }

  lemma SplicesNone(fs: Fs, inum: nat, off: nat)
    requires inum in fs.inodes && off <= fs.inodes[inum].size
    ensures Splices(fs, fs, inum, off, [])
  {
  }

  /** A bound on the blocks that writei logs, the inode's own block last. */
  function WriteCost(off: nat, n: nat): nat {
    Touched(off, n) + Allocated(off, n) + 3
  }

  lemma CostOf(fs: Fs, fs': Fs, l0: set<nat>, l: set<nat>, data: set<nat>, bits: set<nat>, inum: nat, off: nat, n: nat)
    requires Account(l0, l, data, bits, Touched(off, n), Allocated(off, n), fs, fs', inum)
    ensures |data + bits + IndirectOf(fs', inum)| < WriteCost(off, n)
    ensures l0 <= l <= l0 + (data + bits + IndirectOf(fs', inum))
  {
  }

  lemma CostGrows(off: nat, n: nat, n': nat)
    requires n <= n'
    ensures WriteCost(off, n) <= WriteCost(off, n')
  {
    assert (off + n + 1023) / 1024 <= (off + n' + 1023) / 1024;
  }

  /** A chunk of filewrite fits in the blocks that begin_op reserves, because the first
      block of an unaligned write is there already. */
  lemma ChunkFits(off: nat, n: nat)
    requires n <= 3072
    ensures WriteCost(off, n) <= 10
  {
    if n > 0 {
      var q, r := off / 1024, off % 1024;
      assert off == q * 1024 + r;
      assert (off + n + 1023) / 1024 <= q + (if r == 0 then 3 else 4);
    }
  }

  lemma SizeBound(fs: Fs, owner: Owners, inum: nat)
    requires FsOk(fs, owner) && inum in fs.inodes
    ensures fs.inodes[inum].size <= MAXFILE * 1024
  {
    assert Mapped(fs, inum);
  }

  lemma FsParts(fs: Fs, owner: Owners, inum: nat)
    requires FsOk(fs, owner) && inum in fs.inodes
    ensures Ownership(fs, owner) && Mapped(fs, inum)
  {
  }

  lemma ProgressAccount(fs: Fs, fs': Fs, owner: Owners, l0: set<nat>, l: set<nat>, data: set<nat>, bits: set<nat>,
                        bmapstart: nat, inum: nat, off: nat, done: seq<nat>, n: nat)
    requires Progress(fs, fs', owner, l0, l, data, bits, bmapstart, inum, off, done, n)
    ensures Account(l0, l, data, bits, Touched(off, n), Allocated(off, n), fs, fs', inum)
  {
  }

  lemma RecordedMore(fs: Fs, fs': Fs, bmapstart: nat, l: set<nat>, l': set<nat>)
    requires Recorded(fs, fs', bmapstart, l) && l <= l'
    ensures Recorded(fs, fs', bmapstart, l')
  {
  }

  lemma BelowSize(fs: Fs, inum: nat, pos: nat)
    requires inum in fs.inodes && Mapped(fs, inum) && pos < fs.inodes[inum].size
    ensures pos / 1024 < MAXFILE && Ptr(fs, SlotOf(inum, pos / 1024)) != 0 && IsSlot(fs, SlotOf(inum, pos / 1024))
  {
    assert pos / 1024 * 1024 <= pos;
  }

  /** A slice of a block is that slice of the file. */
  lemma BlockSlice(fs: Fs, inum: nat, pos: nat, m: nat)
    requires inum in fs.inodes && pos + m <= fs.inodes[inum].size && m <= 1024 - pos % 1024 && pos / 1024 < MAXFILE
    requires Ptr(fs, SlotOf(inum, pos / 1024)) != 0 && Ptr(fs, SlotOf(inum, pos / 1024)) in fs.blocks
    requires |fs.blocks[Ptr(fs, SlotOf(inum, pos / 1024))]| == 1024
    ensures fs.blocks[Ptr(fs, SlotOf(inum, pos / 1024))][pos % 1024..pos % 1024 + m] == Content(fs, inum)[pos..pos + m]
  {
    var a := fs.blocks[Ptr(fs, SlotOf(inum, pos / 1024))][pos % 1024..pos % 1024 + m];
    var b := Content(fs, inum)[pos..pos + m];
    forall i | 0 <= i < m
      ensures a[i] == b[i]
    {
      var k := pos + i;
      assert k / 1024 == pos / 1024 && k % 1024 == pos % 1024 + i;
      assert b[i] == ByteIn(fs, inum, k);
    }
  }

  lemma SubsetCount(a: set<nat>, b: set<nat>)
    requires a <= b
    ensures |a| <= |b|
  {
    assert a + (b - a) == b;
  }

  // ----- itrunc -----

  /** Slots of an inode that itrunc has been through: pointers below i, entries below j. */
  predicate Gone(s: Slot, inum: nat, i: nat, j: nat) {
    s.inum == inum && match s case Direct(_, k) => k < i case Entry(_, k) => k < j
  }

  ghost function UsedAfter(used: seq<bool>, owner: Owners, inum: nat, i: nat, j: nat): (r: seq<bool>)
    ensures |r| == |used|
  {
    seq(|used|, b requires 0 <= b < |used| => used[b] && !(b in owner && Gone(owner[b], inum, i, j)))
  }

  lemma UsedAfterNone(used: seq<bool>, owner: Owners, inum: nat)
    ensures UsedAfter(used, owner, inum, 0, 0) == used
  {
    var r := UsedAfter(used, owner, inum, 0, 0);
    assert forall b :: 0 <= b < |used| ==> r[b] == used[b];
  }

  /** Freeing the block of one more slot; its bit is still set, so bfree does not panic. */
  lemma UsedAfterSlot(fs: Fs, owner: Owners, s: Slot, i: nat, j: nat, i': nat, j': nat)
    requires Ownership(fs, owner) && IsSlot(fs, s) && !Gone(s, s.inum, i, j) && i <= i' <= 13 && j <= j' <= 256
    requires forall t :: IsSlot(fs, t) && t.inum == s.inum ==>
      (Gone(t, s.inum, i', j') <==> Gone(t, s.inum, i, j) || t == s)
    ensures Ptr(fs, s) != 0 ==>
      && Ptr(fs, s) < |fs.used| && UsedAfter(fs.used, owner, s.inum, i, j)[Ptr(fs, s)]
      && UsedAfter(fs.used, owner, s.inum, i', j') == UsedAfter(fs.used, owner, s.inum, i, j)[Ptr(fs, s) := false]
    ensures Ptr(fs, s) == 0 ==> UsedAfter(fs.used, owner, s.inum, i', j') == UsedAfter(fs.used, owner, s.inum, i, j)
  {
    var p, was, now := Ptr(fs, s), UsedAfter(fs.used, owner, s.inum, i, j), UsedAfter(fs.used, owner, s.inum, i', j');
    if p != 0 {
      PtrInside(fs, owner, s);
    }
    forall b | 0 <= b < |fs.used|
      ensures now[b] == (was[b] && (p == 0 || b != p))
    {
      if b in owner {
        assert OwnerOk(fs, owner, b);
      }
    }
  }

  ghost function KeptOwners(owner: Owners, inum: nat): Owners {
    map b | b in owner && owner[b].inum != inum :: owner[b]
  }

  /** The file system after itrunc. */
  ghost function Truncated(fs: Fs, owner: Owners, inum: nat): Fs {
    Fs(UsedAfter(fs.used, owner, inum, 13, 256), fs.blocks, fs.inodes[inum := Dinode(Zeros(13), 0)], fs.start)
  }

  lemma TruncatedPtr(fs: Fs, owner: Owners, inum: nat, s: Slot)
    ensures Ptr(Truncated(fs, owner, inum), s) == if s.inum == inum then 0 else Ptr(fs, s)
  {
  }

  /** itrunc gives back exactly the inode's blocks and touches no other file. */
  lemma TruncatedOk(fs: Fs, owner: Owners, inum: nat)
    requires FsOk(fs, owner) && inum in fs.inodes
    ensures FsOk(Truncated(fs, owner, inum), KeptOwners(owner, inum))
  {
    var fs', owner' := Truncated(fs, owner, inum), KeptOwners(owner, inum);
    TruncatedOwnership(fs, owner, inum);
    forall n | n in fs'.inodes
      ensures Mapped(fs', n)
    {
      if n != inum {
        assert Mapped(fs, n);
        forall bn: nat | bn * 1024 < fs.inodes[n].size
          ensures Ptr(fs', SlotOf(n, bn)) != 0
        {
          TruncatedPtr(fs, owner, inum, SlotOf(n, bn));
          assert Ptr(fs, SlotOf(n, bn)) != 0;
        }
      }
    }
  }

  lemma TruncatedOwnership(fs: Fs, owner: Owners, inum: nat)
    requires Ownership(fs, owner) && inum in fs.inodes
    ensures Ownership(Truncated(fs, owner, inum), KeptOwners(owner, inum))
  {
    var fs', owner' := Truncated(fs, owner, inum), KeptOwners(owner, inum);
    forall s
      ensures SlotOk(fs', owner', s)
    {
      TruncatedPtr(fs, owner, inum, s);
      assert SlotOk(fs, owner, s);
    }
    forall b | b in owner'
      ensures OwnerOk(fs', owner', b)
    {
      assert OwnerOk(fs, owner, b);
      TruncatedPtr(fs, owner, inum, owner[b]);
    }
    forall b | 0 <= b < fs'.start
      ensures fs'.used[b]
    {
      assert b !in owner;
    }
    forall b | fs'.start <= b < |fs'.used| && fs'.used[b]
      ensures b in owner'
    {
      assert OwnerOk(fs, owner, b);
    }
  }

  lemma TruncatedContent(fs: Fs, owner: Owners, inum: nat, n: nat)
    requires inum in fs.inodes && n in fs.inodes
    ensures Content(Truncated(fs, owner, inum), n) == if n == inum then [] else Content(fs, n)
  {
    var fs' := Truncated(fs, owner, inum);
    if n != inum {
      forall k: nat
        ensures ByteIn(fs', n, k) == ByteIn(fs, n, k)
      {
        TruncatedPtr(fs, owner, inum, SlotOf(n, k / 1024));
      }
    }
  }

  /** Without an indirect block there is nothing more to free. */
  lemma NoEntries(fs: Fs, owner: Owners, inum: nat)
    requires Ownership(fs, owner) && inum in fs.inodes && Addr(fs, inum, 12) == 0
    ensures UsedAfter(fs.used, owner, inum, 13, 256) == UsedAfter(fs.used, owner, inum, 12, 0)
  {
    var was, now := UsedAfter(fs.used, owner, inum, 12, 0), UsedAfter(fs.used, owner, inum, 13, 256);
    forall b | 0 <= b < |fs.used|
      ensures now[b] == was[b]
    {
      if b in owner {
        assert OwnerOk(fs, owner, b);
      }
    }
  }

  /** The inodes when itrunc has cleared the first i pointers of one. */
  ghost function ClearedTo(fs: Fs, inum: nat, i: nat): map<nat, Dinode>
    requires inum in fs.inodes && i <= |fs.inodes[inum].addrs|
  {
    fs.inodes[inum := fs.inodes[inum].(addrs := Zeros(i) + fs.inodes[inum].addrs[i..])]
  }

  lemma ClearedNone(fs: Fs, inum: nat)
    requires inum in fs.inodes
    ensures ClearedTo(fs, inum, 0) == fs.inodes
  {
    assert Zeros(0) + fs.inodes[inum].addrs[0..] == fs.inodes[inum].addrs;
  }

  lemma ClearedMore(fs: Fs, inum: nat, i: nat)
    requires inum in fs.inodes && i < |fs.inodes[inum].addrs|
    ensures |ClearedTo(fs, inum, i)[inum].addrs| == |fs.inodes[inum].addrs|
    ensures ClearedTo(fs, inum, i)[inum].addrs[i] == fs.inodes[inum].addrs[i]
    ensures ClearedTo(fs, inum, i + 1)[inum].addrs == ClearedTo(fs, inum, i)[inum].addrs[i := 0]
    ensures var was, now := ClearedTo(fs, inum, i), ClearedTo(fs, inum, i + 1);
      now == was[inum := was[inum].(addrs := now[inum].addrs)]
    ensures fs.inodes[inum].addrs[i] == 0 ==> ClearedTo(fs, inum, i + 1) == ClearedTo(fs, inum, i)
  {
    var addrs := fs.inodes[inum].addrs;
    assert (Zeros(i) + addrs[i..])[i := 0] == Zeros(i + 1) + addrs[i + 1..];
    if addrs[i] == 0 {
      assert Zeros(i) + addrs[i..] == Zeros(i + 1) + addrs[i + 1..];
    }
  }

  lemma ClearedAll(fs: Fs, inum: nat)
    requires inum in fs.inodes && |fs.inodes[inum].addrs| == 13
    ensures ClearedTo(fs, inum, 13)[inum].addrs == Zeros(13)
    ensures ClearedTo(fs, inum, 13)[inum := ClearedTo(fs, inum, 13)[inum].(size := 0)]
         == fs.inodes[inum := Dinode(Zeros(13), 0)]
  {
    assert Zeros(13) + fs.inodes[inum].addrs[13..] == Zeros(13);
  }

  lemma SliceJoin(s: seq<nat>, a: nat, b: nat, c: nat)
    requires a <= b <= c <= |s|
    ensures s[a..b] + s[b..c] == s[a..c]
  {
  }

  lemma InodeShape(fs: Fs, owner: Owners, inum: nat)
    requires Ownership(fs, owner) && inum in fs.inodes
    ensures |fs.inodes[inum].addrs| == 13
  {
  }
}
